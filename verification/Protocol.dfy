/** Many client connections over a network that loses, repeats and delays, against one
    ordered log.  A message once sent may enter the log at any later time, any number of
    times; an answer may be seen any number of times or never.  Each session has one owner. */
module Protocol {
  import opened Common
  import opened Store
  import opened Client

  /** What is fixed during a run: SQL, the initial state, and which writes each door admits: a
      node at some time.  What a door does not admit it refuses before ordering. */
  datatype Service = Service(engine: Engine, start: Store.State, admits: (nat, Write) -> bool)

  ghost predicate Admitted(v: Service, w: Write)
  {
    exists door: nat :: v.admits(door, w)
  }

  ghost predicate Barred(v: Service, w: Write)
  {
    exists door: nat :: !v.admits(door, w)
  }

  /** On these writes all doors are of one mind. */
  ghost predicate AgreeOn(v: Service, writes: set<Write>)
  {
    forall w | w in writes :: !(Admitted(v, w) && Barred(v, w))
  }

  /** `settled` remembers what each client was told when a write stopped being pending. */
  datatype System = System(log: seq<Request>, sent: set<Write>, clients: map<string, Retry>,
                           settled: set<(Write, Settlement)>)

  datatype Settlement = Decided(outcome: Outcome) | TurnedDown

  datatype Action =
    | Open(session: string)
    | Discover(session: string)
    | Prepare(session: string, content: Content)
    | Send(session: string)
    | Order(request: Request, door: nat)
    | Deliver(session: string, at: nat)
    | TurnDown(session: string, word: Word, door: nat)

  function Now(v: Service, s: System): Store.State
  {
    After(v.engine, v.start, s.log)
  }

  ghost predicate Starts(v: Service, s: System)
  {
    Initial(v.start) && s == System([], {}, map[], {})
  }

  ghost predicate Enabled(v: Service, s: System, a: Action)
  {
    match a
    case Open(name) => name !in s.clients
    case Discover(name) => name in s.clients && s.clients[name].epoch.None?
    case Prepare(name, _) =>
      && name in s.clients && s.clients[name].pending.None? && s.clients[name].epoch.Some?
      && s.clients[name].sequence <= MAX_I64
    case Send(name) => name in s.clients && s.clients[name].pending.Some?
    case Order(r, door) => r.Submit? ==> r.write in s.sent && v.admits(door, r.write)
    case Deliver(name, at) =>
      && name in s.clients && s.clients[name].pending.Some?
      && at < |s.log| && s.log[at] == Submit(s.clients[name].pending.value)
    case TurnDown(name, word, door) =>
      && name in s.clients && s.clients[name].pending.Some? && Client.Refused(word)
      && s.clients[name].pending.value in s.sent && !v.admits(door, s.clients[name].pending.value)
  }

  function Next(v: Service, s: System, a: Action): System
    requires Enabled(v, s, a)
  {
    match a
    case Open(name) => s.(clients := s.clients[name := Retry(1, None, None)])
    case Discover(name) => s.(clients := s.clients[name := s.clients[name].(epoch := Some(Now(v, s).epoch))])
    case Prepare(name, content) => s.(clients := s.clients[name := Begin(name, s.clients[name], content)])
    case Send(name) => s.(sent := s.sent + {s.clients[name].pending.value})
    case Order(r, _) => s.(log := s.log + [r])
    case Deliver(name, at) =>
      var c, outcome := s.clients[name], OutcomeAt(v.engine, v.start, s.log, at);
      s.(clients := s.clients[name := Settle(c, Of(outcome.code))],
         settled := if Settles(Of(outcome.code)) then s.settled + {(c.pending.value, Decided(outcome))} else s.settled)
    case TurnDown(name, word, _) =>
      var c := s.clients[name];
      s.(clients := s.clients[name := Settle(c, word)],
         settled := s.settled + {(c.pending.value, TurnedDown)})
  }

  /** `run` is a run of the system taking `actions`. */
  ghost predicate Run(v: Service, run: seq<System>, actions: seq<Action>)
  {
    && |run| == |actions| + 1 && Starts(v, run[0])
    && forall i | 0 <= i < |actions| ::
         Enabled(v, run[i], actions[i]) && run[i + 1] == Next(v, run[i], actions[i])
  }

  // ---------------------------------------------------------------------- the invariant

  function LastOf(s: Store.State, name: string): nat
  {
    if name in s.sessions then s.sessions[name].last else 0
  }

  /** What a connection knows about itself. */
  ghost predicate GoodClient(now: Store.State, name: string, c: Retry)
  {
    && c.sequence >= 1
    && (c.epoch.None? ==> c.sequence == 1 && c.pending.None?)
    && (c.epoch.Some? ==> c.epoch.value <= now.epoch)
    && (c.pending.Some? ==> c.epoch.Some? && c.pending.value.id == Identity(name, c.epoch.value, c.sequence))
  }

  /** A sent write belongs to its session's one epoch and is not ahead of it; at the
      session's present number it is the pending one, or was turned down. */
  ghost predicate GoodSent(s: System, w: Write)
  {
    && w.id.session in s.clients
    && var c := s.clients[w.id.session];
    && c.epoch == Some(w.id.epoch) && 1 <= w.id.sequence <= c.sequence
    && (w.id.sequence == c.sequence ==> c.pending == Some(w) || (w, TurnedDown) in s.settled)
  }

  /** Of two different writes under one identity, one at least was turned down. */
  ghost predicate OneContent(s: System)
  {
    forall w, x | w in s.sent && x in s.sent && w.id == x.id && w != x ::
      (w, TurnedDown) in s.settled || (x, TurnedDown) in s.settled
  }

  ghost predicate GoodSettled(v: Service, s: System, w: Write, answer: Settlement)
  {
    && w in s.sent
    && match answer
       case TurnedDown => Barred(v, w)
       case Decided(outcome) =>
         Conclusive(outcome.code) &&
         exists at: nat :: AnsweredAt(v, s, w, outcome, at)
  }

  ghost predicate AnsweredAt(v: Service, s: System, w: Write, outcome: Outcome, at: nat)
  {
    at < |s.log| && s.log[at] == Submit(w) && OutcomeAt(v.engine, v.start, s.log, at) == outcome
  }

  ghost predicate LogIsSent(v: Service, s: System)
  {
    forall r | r in s.log :: r.Submit? ==> r.write in s.sent && Admitted(v, r.write)
  }

  /** What holds whatever the doors admit. */
  ghost predicate Inv(v: Service, s: System)
  {
    && Initial(v.start)
    && (forall n | n in s.clients :: GoodClient(Now(v, s), n, s.clients[n]))
    && (forall w | w in s.sent :: GoodSent(s, w))
    && (forall p | p in s.settled :: GoodSettled(v, s, p.0, p.1))
    && OneContent(s) && LogIsSent(v, s)
  }

  lemma InitialInv(v: Service, s: System)
    requires Starts(v, s)
    ensures Inv(v, s)
  {
  }

  // ------------------------------------------------------------- steps keep the invariant

  /** Steps that leave the log alone and change one client. */
  ghost predicate Quiet(s: System, t: System, name: string)
  {
    && t.log == s.log && s.sent <= t.sent && s.settled <= t.settled
    && s.clients.Keys <= t.clients.Keys
    && forall n | n in t.clients && n != name :: n in s.clients && t.clients[n] == s.clients[n]
  }

  lemma QuietInv(v: Service, s: System, t: System, name: string)
    requires Inv(v, s) && Quiet(s, t, name) && name in t.clients
    requires GoodClient(Now(v, t), name, t.clients[name])
    requires forall w | w in t.sent && (w !in s.sent || w.id.session == name) :: GoodSent(t, w)
    requires forall p | p in t.settled && p !in s.settled :: GoodSettled(v, t, p.0, p.1)
    requires OneContent(t)
    ensures Inv(v, t)
  {
    forall w | w in t.sent ensures GoodSent(t, w) {
      if w in s.sent && w.id.session != name {
        assert GoodSent(s, w);
      }
    }
    assert t.log == s.log + [];
    forall p | p in t.settled ensures GoodSettled(v, t, p.0, p.1) {
      if p in s.settled {
        assert GoodSettled(v, s, p.0, p.1);
        SettledStays(v, s, t, p.0, p.1);
      }
    }
  }

  lemma SettledStays(v: Service, s: System, t: System, w: Write, answer: Settlement)
    requires GoodSettled(v, s, w, answer) && s.sent <= t.sent
    requires exists more :: t.log == s.log + more
    ensures GoodSettled(v, t, w, answer)
  {
    if answer.Decided? {
      var at: nat :| AnsweredAt(v, s, w, answer.outcome, at);
      var more :| t.log == s.log + more;
      AtPrefix(v.engine, v.start, s.log, more, at);
      assert AnsweredAt(v, t, w, answer.outcome, at);
    }
  }

  lemma OpenInv(v: Service, s: System, name: string)
    requires Inv(v, s) && Enabled(v, s, Open(name))
    ensures Inv(v, Next(v, s, Open(name)))
  {
    var t := Next(v, s, Open(name));
    forall w | w in t.sent ensures w.id.session != name {
      assert GoodSent(s, w);
    }
    QuietInv(v, s, t, name);
  }

  lemma DiscoverInv(v: Service, s: System, name: string)
    requires Inv(v, s) && Enabled(v, s, Discover(name))
    ensures Inv(v, Next(v, s, Discover(name)))
  {
    var t := Next(v, s, Discover(name));
    assert GoodClient(Now(v, s), name, s.clients[name]);
    forall w | w in t.sent ensures w.id.session != name {
      assert GoodSent(s, w);
    }
    QuietInv(v, s, t, name);
  }

  lemma PrepareInv(v: Service, s: System, name: string, content: Content)
    requires Inv(v, s) && Enabled(v, s, Prepare(name, content))
    ensures Inv(v, Next(v, s, Prepare(name, content)))
  {
    var t := Next(v, s, Prepare(name, content));
    assert GoodClient(Now(v, s), name, s.clients[name]);
    forall w | w in t.sent && w.id.session == name ensures GoodSent(t, w) {
      assert GoodSent(s, w);
    }
    QuietInv(v, s, t, name);
  }

  lemma SendInv(v: Service, s: System, name: string)
    requires Inv(v, s) && Enabled(v, s, Send(name))
    ensures Inv(v, Next(v, s, Send(name)))
  {
    var t := Next(v, s, Send(name));
    var p := s.clients[name].pending.value;
    assert GoodClient(Now(v, s), name, s.clients[name]);
    forall w | w in t.sent && (w !in s.sent || w.id.session == name) ensures GoodSent(t, w) {
      if w in s.sent { assert GoodSent(s, w); }
    }
    forall w, x | w in t.sent && x in t.sent && w.id == x.id && w != x
      ensures (w, TurnedDown) in t.settled || (x, TurnedDown) in t.settled
    {
      if w in s.sent { assert GoodSent(s, w); }
      if x in s.sent { assert GoodSent(s, x); }
    }
    QuietInv(v, s, t, name);
  }

  lemma TurnDownInv(v: Service, s: System, name: string, word: Word, door: nat)
    requires Inv(v, s) && Enabled(v, s, TurnDown(name, word, door))
    ensures Inv(v, Next(v, s, TurnDown(name, word, door)))
  {
    var t := Next(v, s, TurnDown(name, word, door));
    assert GoodClient(Now(v, s), name, s.clients[name]);
    assert Barred(v, s.clients[name].pending.value);
    forall w | w in t.sent && w.id.session == name ensures GoodSent(t, w) {
      assert GoodSent(s, w);
    }
    QuietInv(v, s, t, name);
  }

  lemma DeliverInv(v: Service, s: System, name: string, at: nat)
    requires Inv(v, s) && Enabled(v, s, Deliver(name, at))
    ensures Inv(v, Next(v, s, Deliver(name, at)))
  {
    var t := Next(v, s, Deliver(name, at));
    var w, outcome := s.clients[name].pending.value, OutcomeAt(v.engine, v.start, s.log, at);
    assert GoodClient(Now(v, s), name, s.clients[name]);
    assert s.log[at] in s.log && w in s.sent;
    if Conclusive(outcome.code) {
      assert AnsweredAt(v, t, w, outcome, at);
    }
    forall x | x in t.sent && x.id.session == name ensures GoodSent(t, x) {
      assert GoodSent(s, x);
    }
    QuietInv(v, s, t, name);
  }

  lemma OrderInv(v: Service, s: System, r: Request, door: nat)
    requires Inv(v, s) && Enabled(v, s, Order(r, door))
    ensures Inv(v, Next(v, s, Order(r, door)))
  {
    var t := Next(v, s, Order(r, door));
    AppendOne(v.engine, v.start, s.log, r);
    forall n | n in t.clients ensures GoodClient(Now(v, t), n, t.clients[n]) {
      assert GoodClient(Now(v, s), n, s.clients[n]);
    }
    forall w | w in t.sent ensures GoodSent(t, w) {
      assert GoodSent(s, w);
    }
    forall p | p in t.settled ensures GoodSettled(v, t, p.0, p.1) {
      assert GoodSettled(v, s, p.0, p.1);
      SettledStays(v, s, t, p.0, p.1);
    }
  }

  lemma NextInv(v: Service, s: System, a: Action)
    requires Inv(v, s) && Enabled(v, s, a)
    ensures Inv(v, Next(v, s, a))
  {
    match a
    case Open(name) => OpenInv(v, s, name);
    case Discover(name) => DiscoverInv(v, s, name);
    case Prepare(name, content) => PrepareInv(v, s, name, content);
    case Send(name) => SendInv(v, s, name);
    case Order(r, door) => OrderInv(v, s, r, door);
    case Deliver(name, at) => DeliverInv(v, s, name, at);
    case TurnDown(name, word, door) => TurnDownInv(v, s, name, word, door);
  }

  lemma {:induction false} RunInv(v: Service, run: seq<System>, actions: seq<Action>, i: nat)
    requires Run(v, run, actions) && i < |run|
    ensures Inv(v, run[i])
  {
    if i == 0 {
      InitialInv(v, run[0]);
    } else {
      RunInv(v, run, actions, i - 1);
      NextInv(v, run[i - 1], actions[i - 1]);
    }
  }

  // --------------------------------------------------- clients and store stay in step

  /** The store is at the client's previous number, or at its present one with the pending
      write on record. */
  ghost predicate InStep(v: Service, now: Store.State, name: string, c: Retry)
  {
    if c.epoch != Some(now.epoch) then name !in now.sessions
    else
      || LastOf(now, name) == c.sequence - 1
      || (&& name in now.sessions && LastOf(now, name) == c.sequence
          && c.pending.Some? && Admitted(v, c.pending.value)
          && now.sessions[name].content == c.pending.value.content)
  }

  ghost predicate RowIsSent(v: Service, sent: set<Write>, now: Store.State, name: string)
    requires name in now.sessions
  {
    var row := now.sessions[name];
    var w := Write(Identity(name, now.epoch, row.last), row.content);
    w in sent && Admitted(v, w) && Clear(row.outcome.code)
  }

  /** Neither of the two answers that a sole owner is not to get. */
  predicate Clear(c: Code)
  {
    c != IdentityConflict && c != SequenceGap
  }

  ghost predicate RowsAreSent(v: Service, sent: set<Write>, now: Store.State)
  {
    forall name | name in now.sessions :: RowIsSent(v, sent, now, name)
  }

  /** What holds in addition as long as the doors agree on all that was sent. */
  ghost predicate Synced(v: Service, s: System)
  {
    && Inv(v, s) && AgreeOn(v, s.sent) && RowsAreSent(v, s.sent, Now(v, s))
    && forall n | n in s.clients :: InStep(v, Now(v, s), n, s.clients[n])
  }

  lemma NotTurnedDown(v: Service, s: System, w: Write)
    requires Inv(v, s) && AgreeOn(v, s.sent) && Admitted(v, w)
    ensures (w, TurnedDown) !in s.settled
  {
    forall p | p in s.settled ensures p != (w, TurnedDown) {
      assert GoodSettled(v, s, p.0, p.1);
    }
  }

  /** Two admitted writes of one identity are one write. */
  lemma AdmittedOnce(v: Service, s: System, w: Write, x: Write)
    requires Inv(v, s) && AgreeOn(v, s.sent) && w in s.sent && x in s.sent && w.id == x.id
    requires Admitted(v, w) && Admitted(v, x)
    ensures w == x
  {
    NotTurnedDown(v, s, w);
    NotTurnedDown(v, s, x);
  }

  lemma QuietSync(v: Service, s: System, t: System, name: string)
    requires Synced(v, s) && Quiet(s, t, name) && name in t.clients
    requires Inv(v, t) && AgreeOn(v, t.sent) && InStep(v, Now(v, t), name, t.clients[name])
    ensures Synced(v, t)
  {
    forall n | n in Now(v, t).sessions ensures RowIsSent(v, t.sent, Now(v, t), n) {
      assert RowIsSent(v, s.sent, Now(v, s), n);
    }
    forall n | n in t.clients ensures InStep(v, Now(v, t), n, t.clients[n]) {
      if n != name { assert InStep(v, Now(v, s), n, s.clients[n]); }
    }
  }

  lemma OpenSync(v: Service, s: System, name: string)
    requires Synced(v, s) && Enabled(v, s, Open(name))
    ensures Synced(v, Next(v, s, Open(name)))
  {
    OpenInv(v, s, name);
    forall n | n in Now(v, s).sessions ensures n != name {
      assert RowIsSent(v, s.sent, Now(v, s), n);
      var row := Now(v, s).sessions[n];
      assert GoodSent(s, Write(Identity(n, Now(v, s).epoch, row.last), row.content));
    }
    QuietSync(v, s, Next(v, s, Open(name)), name);
  }

  /** A conclusive answer to the pending write means that the store is at its number. */
  lemma AnsweredInStep(v: Service, s: System, name: string, at: nat)
    requires Synced(v, s) && Enabled(v, s, Deliver(name, at))
    requires Conclusive(OutcomeAt(v.engine, v.start, s.log, at).code)
    ensures InStep(v, Now(v, s), name, Settle(s.clients[name], Of(OutcomeAt(v.engine, v.start, s.log, at).code)))
  {
    var c, now := s.clients[name], Now(v, s);
    var w, outcome := c.pending.value, OutcomeAt(v.engine, v.start, s.log, at);
    assert GoodClient(now, name, c) && InStep(v, now, name, c);
    Store.Step(v.engine, v.start, s.log, at);
    assert OnRecord(At(v.engine, v.start, s.log, at + 1), w, outcome);
    RecordStaysAt(v.engine, v.start, s.log, at + 1, |s.log|, w, outcome);
    AtEnd(v.engine, v.start, s.log);
  }

  /** The steps of one client other than its opening. */
  lemma ClientSync(v: Service, s: System, a: Action)
    requires Synced(v, s) && Enabled(v, s, a) && !a.Open? && !a.Order?
    requires AgreeOn(v, Next(v, s, a).sent)
    ensures Synced(v, Next(v, s, a))
  {
    var name := a.session;
    NextInv(v, s, a);
    assert GoodClient(Now(v, s), name, s.clients[name]) && InStep(v, Now(v, s), name, s.clients[name]);
    if a.Deliver? && Conclusive(OutcomeAt(v.engine, v.start, s.log, a.at).code) {
      AnsweredInStep(v, s, name, a.at);
    }
    if a.TurnDown? {
      assert Barred(v, s.clients[name].pending.value);
    }
    QuietSync(v, s, Next(v, s, a), name);
  }

  /** What ordering one request does to one session's row. */
  lemma OrderInStep(v: Service, s: System, r: Request, door: nat, name: string)
    requires Synced(v, s) && Enabled(v, s, Order(r, door)) && name in s.clients
    ensures InStep(v, Apply(v.engine, Now(v, s), r).0, name, s.clients[name])
  {
    var now, c := Now(v, s), s.clients[name];
    assert GoodClient(now, name, c) && InStep(v, now, name, c);
    if r.Submit? && r.write.id.session == name {
      assert GoodSent(s, r.write);
      assert Admitted(v, r.write);
      NotTurnedDown(v, s, r.write);
    }
  }

  lemma AnswerToOwner(v: Service, s: System, w: Write)
    requires Synced(v, s) && w in s.sent && Admitted(v, w)
    ensures Clear(Apply(v.engine, Now(v, s), Submit(w)).1.code)
  {
    var now, name := Now(v, s), w.id.session;
    assert GoodSent(s, w);
    assert InStep(v, now, name, s.clients[name]);
    if name in now.sessions && w.id.epoch == now.epoch {
      assert RowIsSent(v, s.sent, now, name);
      if w.id.sequence == now.sessions[name].last {
        AdmittedOnce(v, s, w, Write(w.id, now.sessions[name].content));
      }
    }
  }

  lemma OrderRows(v: Service, s: System, r: Request, door: nat)
    requires Synced(v, s) && Enabled(v, s, Order(r, door))
    ensures RowsAreSent(v, s.sent, Apply(v.engine, Now(v, s), r).0)
  {
    var now, then' := Now(v, s), Apply(v.engine, Now(v, s), r).0;
    if r.Submit? {
      assert Admitted(v, r.write);
      AnswerToOwner(v, s, r.write);
    }
    forall n | n in then'.sessions ensures RowIsSent(v, s.sent, then', n) {
      RowStep(v.engine, now, r, n);
      if n in now.sessions { assert RowIsSent(v, s.sent, now, n); }
    }
  }

  lemma NextSync(v: Service, s: System, a: Action)
    requires Synced(v, s) && Enabled(v, s, a) && AgreeOn(v, Next(v, s, a).sent)
    ensures Synced(v, Next(v, s, a))
  {
    match a {
      case Open(name) => OpenSync(v, s, name);
      case Order(r, door) =>
        AppendOne(v.engine, v.start, s.log, r);
        NextInv(v, s, a);
        OrderRows(v, s, r, door);
        forall n | n in s.clients ensures InStep(v, Now(v, Next(v, s, a)), n, s.clients[n]) {
          OrderInStep(v, s, r, door, n);
        }
      case _ => ClientSync(v, s, a);
    }
  }

  lemma SentGrows(v: Service, s: System, a: Action)
    requires Enabled(v, s, a)
    ensures s.sent <= Next(v, s, a).sent
  {
  }

  lemma {:induction false} RunSync(v: Service, run: seq<System>, actions: seq<Action>, i: nat)
    requires Run(v, run, actions) && i < |run| && AgreeOn(v, run[i].sent)
    ensures Synced(v, run[i])
  {
    if i == 0 {
      InitialInv(v, run[0]);
    } else {
      SentGrows(v, run[i - 1], actions[i - 1]);
      RunSync(v, run, actions, i - 1);
      NextSync(v, run[i - 1], actions[i - 1]);
    }
  }

  // -------------------------------------------------------------------- what runs promise

  /** Different content is sent under one identity only after one of the two was answered
      Invalid_Request or Unsupported. */
  lemma OneContentPerIdentity(v: Service, run: seq<System>, actions: seq<Action>, i: nat, w: Write, x: Write)
    requires Run(v, run, actions) && i < |run|
    requires w in run[i].sent && x in run[i].sent && w.id == x.id && w != x
    ensures (w, TurnedDown) in run[i].settled || (x, TurnedDown) in run[i].settled
  {
    RunInv(v, run, actions, i);
  }

  /** Some door admits a write of this identity that another turns down, and some door admits
      another content under it. */
  ghost predicate Disagree(v: Service, id: Identity)
  {
    exists w, x :: TwoMinds(v, id, w, x)
  }

  ghost predicate TwoMinds(v: Service, id: Identity, w: Write, x: Write)
  {
    w.id == id && x.id == id && w != x && Admitted(v, w) && Barred(v, w) && Admitted(v, x)
  }

  /** Two contents of one identity are in the log. */
  ghost predicate Split(s: System, id: Identity)
  {
    exists w: Write, x: Write :: w.id == id && x.id == id && w != x && Submit(w) in s.log && Submit(x) in s.log
  }

  lemma SplitNeedsDisagreement(v: Service, run: seq<System>, actions: seq<Action>, i: nat, id: Identity)
    requires Run(v, run, actions) && i < |run| && Split(run[i], id)
    ensures Disagree(v, id)
  {
    var s := run[i];
    RunInv(v, run, actions, i);
    var w: Write, x: Write :| w.id == id && x.id == id && w != x && Submit(w) in s.log && Submit(x) in s.log;
    assert Admitted(v, w) && Admitted(v, x) && w in s.sent && x in s.sent;
    if (w, TurnedDown) in s.settled {
      assert GoodSettled(v, s, w, TurnedDown);
      assert TwoMinds(v, id, w, x);
    } else {
      assert GoodSettled(v, s, x, TurnedDown);
      assert TwoMinds(v, id, x, w);
    }
  }

  function Last(run: seq<System>): System
    requires run != []
  {
    run[|run| - 1]
  }

  lemma Extend(v: Service, run: seq<System>, actions: seq<Action>, a: Action)
    returns (longer: seq<System>, more: seq<Action>)
    requires Run(v, run, actions) && Enabled(v, Last(run), a)
    ensures longer == run + [Next(v, Last(run), a)] && more == actions + [a]
    ensures Run(v, longer, more) && Last(longer) == Next(v, Last(run), a) && run <= longer
  {
    longer, more := run + [Next(v, Last(run), a)], actions + [a];
  }

  /** The next write of a client is prepared and sent. */
  lemma SendNext(v: Service, run: seq<System>, actions: seq<Action>, w: Write)
    returns (longer: seq<System>, more: seq<Action>)
    requires Run(v, run, actions) && w.id.session in Last(run).clients
    requires Last(run).clients[w.id.session] == Retry(w.id.sequence, Some(w.id.epoch), None)
    requires w.id.sequence <= MAX_I64
    ensures Run(v, longer, more) && run <= longer
    ensures var s := Last(run);
            Last(longer) == s.(sent := s.sent + {w},
              clients := s.clients[w.id.session := Retry(w.id.sequence, Some(w.id.epoch), Some(w))])
  {
    longer, more := Extend(v, run, actions, Prepare(w.id.session, w.content));
    longer, more := Extend(v, longer, more, Send(w.id.session));
  }

  /** The two writes of a disagreement: the first is sent, turned down and replaced by the
      second; then both are ordered. */
  lemma BothOrdered(v: Service, run: seq<System>, actions: seq<Action>, w: Write, x: Write)
    returns (longer: seq<System>, more: seq<Action>)
    requires Run(v, run, actions) && TwoMinds(v, w.id, w, x) && w.id.session in Last(run).clients
    requires Last(run).clients[w.id.session] == Retry(w.id.sequence, Some(w.id.epoch), None)
    requires w.id.sequence <= MAX_I64
    ensures Run(v, longer, more) && run <= longer
    ensures Last(longer).log == Last(run).log + [Submit(w), Submit(x)]
  {
    var name, s := w.id.session, Last(run);
    var door: nat :| !v.admits(door, w);
    var first: nat :| v.admits(first, w);
    var second: nat :| v.admits(second, x);
    longer, more := SendNext(v, run, actions, w);
    longer, more := Extend(v, longer, more, TurnDown(name, InvalidRequest, door));
    assert Last(longer).clients[name] == s.clients[name] && w in Last(longer).sent && Last(longer).log == s.log;
    longer, more := SendNext(v, longer, more, x);
    assert w in Last(longer).sent && x in Last(longer).sent && Last(longer).log == s.log;
    longer, more := Extend(v, longer, more, Order(Submit(w), first));
    longer, more := Extend(v, longer, more, Order(Submit(x), second));
  }

  ghost predicate CanSplit(v: Service, run: seq<System>, id: Identity)
  {
    exists longer, more :: Run(v, longer, more) && run <= longer && Split(Last(longer), id)
  }

  /** The log keeps one content of an identity that a client is about to use, whatever happens
      from then on, if and only if the doors do not disagree on it. */
  lemma OneContentIfDoorsAgree(v: Service, run: seq<System>, actions: seq<Action>, id: Identity)
    requires Run(v, run, actions) && id.session in Last(run).clients
    requires Last(run).clients[id.session] == Retry(id.sequence, Some(id.epoch), None) && id.sequence <= MAX_I64
    ensures CanSplit(v, run, id) <==> Disagree(v, id)
  {
    if CanSplit(v, run, id) {
      var longer, more :| Run(v, longer, more) && run <= longer && Split(Last(longer), id);
      SplitNeedsDisagreement(v, longer, more, |longer| - 1, id);
    }
    if Disagree(v, id) {
      var w, x :| TwoMinds(v, id, w, x);
      var longer, more := BothOrdered(v, run, actions, w, x);
      var log := Last(longer).log;
      assert log[|log| - 2] == Submit(w) && log[|log| - 1] == Submit(x);
      assert Split(Last(longer), id);
    }
  }

  ghost predicate CanOrder(v: Service, run: seq<System>, w: Write)
  {
    exists longer, more :: Run(v, longer, more) && run <= longer && Submit(w) in Last(longer).log
  }

  /** A write that was turned down can still be ordered, then or later, if and only if some
      other door admits it. */
  lemma TurnedDownForGood(v: Service, run: seq<System>, actions: seq<Action>, w: Write)
    requires Run(v, run, actions) && (w, TurnedDown) in Last(run).settled
    ensures CanOrder(v, run, w) <==> Admitted(v, w)
  {
    RunInv(v, run, actions, |run| - 1);
    assert GoodSettled(v, Last(run), w, TurnedDown);
    if CanOrder(v, run, w) {
      var longer, more :| Run(v, longer, more) && run <= longer && Submit(w) in Last(longer).log;
      RunInv(v, longer, more, |longer| - 1);
    }
    if Admitted(v, w) {
      var door: nat :| v.admits(door, w);
      var longer, more := Extend(v, run, actions, Order(Submit(w), door));
      assert Last(longer).log[|Last(run).log|] == Submit(w);
    }
  }

  /** A session with one owner is never told Identity_Conflict or Sequence_Gap, however its
      messages are repeated and delayed, while the doors agree on what is sent. */
  lemma OwnerIsNeverConfused(v: Service, run: seq<System>, actions: seq<Action>, i: nat, k: nat)
    requires Run(v, run, actions) && i < |run| && k < |run[i].log| && run[i].log[k].Submit?
    requires AgreeOn(v, run[i].sent)
    ensures Clear(OutcomeAt(v.engine, v.start, run[i].log, k).code)
    decreases i
  {
    assert run[0].log == [];
    var s := run[i - 1];
    SentGrows(v, s, actions[i - 1]);
    if k < |s.log| {
      LogGrows(v, s, actions[i - 1]);
      OwnerIsNeverConfused(v, run, actions, i - 1, k);
      AtPrefix(v.engine, v.start, s.log, run[i].log[|s.log|..], k);
    } else {
      RunSync(v, run, actions, i - 1);
      var r := actions[i - 1].request;
      AppendOne(v.engine, v.start, s.log, r);
      assert Admitted(v, r.write);
      AnswerToOwner(v, s, r.write);
    }
  }

  lemma LogGrows(v: Service, s: System, a: Action)
    requires Enabled(v, s, a)
    ensures var t := Next(v, s, a); |s.log| <= |t.log| && t.log == s.log + t.log[|s.log|..]
  {
  }

  /** The agreement is needed: where doors disagree on the first write of a session there is a
      run in which its sole owner is told Identity_Conflict. */
  lemma DisagreementConfuses(v: Service, w: Write, x: Write) returns (run: seq<System>, actions: seq<Action>)
    requires Initial(v.start) && v.engine.sessionLimit > 0
    requires TwoMinds(v, w.id, w, x) && w.id.epoch == 0 && w.id.sequence == 1
    ensures Run(v, run, actions) && Last(run).log == [Submit(w), Submit(x)]
    ensures OutcomeAt(v.engine, v.start, Last(run).log, 1).code == IdentityConflict
  {
    var name := w.id.session;
    run, actions := [System([], {}, map[], {})], [];
    run, actions := Extend(v, run, actions, Open(name));
    run, actions := Extend(v, run, actions, Discover(name));
    run, actions := BothOrdered(v, run, actions, w, x);
    var log := Last(run).log;
    assert log == [Submit(w), Submit(x)];
    Store.Step(v.engine, v.start, log, 0);
    assert log[..0] == [];
  }

  /** An acknowledged write took effect exactly once, with the outcome that was reported. */
  lemma AcknowledgedOnce(v: Service, run: seq<System>, actions: seq<Action>, i: nat, w: Write, outcome: Outcome)
    returns (k: nat)
    requires Run(v, run, actions) && i < |run|
    requires (w, Decided(outcome)) in run[i].settled && outcome.code == Applied
    ensures Effective(v.engine, v.start, run[i].log, k) && run[i].log[k] == Submit(w)
    ensures OutcomeAt(v.engine, v.start, run[i].log, k) == outcome
    ensures forall j: nat :: Effective(v.engine, v.start, run[i].log, j) && run[i].log[j].write.id == w.id ==> j == k
  {
    RunInv(v, run, actions, i);
    assert GoodSettled(v, run[i], w, Decided(outcome));
    var at: nat :| AnsweredAt(v, run[i], w, outcome, at);
    k := AppliedMeansEffect(v.engine, v.start, run[i].log, at);
    forall j: nat | Effective(v.engine, v.start, run[i].log, j) && run[i].log[j].write.id == w.id ensures j == k {
      AtMostOnce(v.engine, v.start, run[i].log, j, k);
    }
  }

  /** A write reported as rejected has no effect, then or at any later time, and neither has
      any other content under its identity. */
  lemma RejectedNever(v: Service, run: seq<System>, actions: seq<Action>, i: nat, j: nat, k: nat,
                      w: Write, outcome: Outcome)
    requires Run(v, run, actions) && i <= j < |run|
    requires (w, Decided(outcome)) in run[i].settled && outcome.code != Applied
    requires k < |run[j].log| && run[j].log[k].Submit? && run[j].log[k].write.id == w.id
    ensures !Effective(v.engine, v.start, run[j].log, k)
  {
    RunInv(v, run, actions, j);
    SettledGrows(v, run, actions, i, j);
    assert GoodSettled(v, run[j], w, Decided(outcome));
    var at: nat :| AnsweredAt(v, run[j], w, outcome, at);
    RejectedMeansNoEffect(v.engine, v.start, run[j].log, at, k);
  }

  lemma {:induction false} SettledGrows(v: Service, run: seq<System>, actions: seq<Action>, i: nat, j: nat)
    requires Run(v, run, actions) && i <= j < |run|
    ensures run[i].settled <= run[j].settled
    decreases j - i
  {
    if i < j {
      assert Enabled(v, run[i], actions[i]) && run[i + 1] == Next(v, run[i], actions[i]);
      SettledGrows(v, run, actions, i + 1, j);
    }
  }

  /** A connection opened from a saved pending write is in the state of the connection that
      saved it, so recovery is not a step of its own. */
  lemma RecoveryRestoresTheClient(v: Service, run: seq<System>, actions: seq<Action>, i: nat, name: string)
    requires Run(v, run, actions) && i < |run|
    requires name in run[i].clients && run[i].clients[name].pending.Some?
    ensures var w := run[i].clients[name].pending.value;
            w.id.session == name && run[i].clients[name] == Retry(w.id.sequence, Some(w.id.epoch), Some(w))
  {
    RunInv(v, run, actions, i);
    assert GoodClient(Now(v, run[i]), name, run[i].clients[name]);
  }

  /** A pending write is kept as it is until it is settled. */
  lemma {:induction false} PendingIsKept(v: Service, run: seq<System>, actions: seq<Action>, i: nat, j: nat,
          name: string)
    requires Run(v, run, actions) && i <= j < |run|
    requires name in run[i].clients && run[i].clients[name].pending.Some?
    ensures var w := run[i].clients[name].pending.value;
            || (name in run[j].clients && run[j].clients[name] == run[i].clients[name])
            || (exists answer :: (w, answer) in run[j].settled)
    decreases j - i
  {
    if i < j {
      var w := run[i].clients[name].pending.value;
      RunInv(v, run, actions, i);
      assert GoodClient(Now(v, run[i]), name, run[i].clients[name]);
      assert Enabled(v, run[i], actions[i]) && run[i + 1] == Next(v, run[i], actions[i]);
      if run[i + 1].clients[name] == run[i].clients[name] {
        PendingIsKept(v, run, actions, i + 1, j, name);
      } else {
        SettledNow(v, run[i], actions[i], name);
        var answer :| (w, answer) in run[i + 1].settled;
        SettledGrows(v, run, actions, i + 1, j);
        assert (w, answer) in run[j].settled;
      }
    }
  }

  /** While its write stays pending, the answer of any ordered copy can come at every later point
      of the run, however far the log has grown, and it is the same answer then. */
  lemma {:induction false} AnswerCanBeLate(v: Service, run: seq<System>, actions: seq<Action>, i: nat, j: nat,
          name: string, at: nat)
    requires Run(v, run, actions) && i <= j < |run|
    requires name in run[i].clients && name in run[j].clients && run[i].clients[name].pending.Some?
    requires run[j].clients[name].pending == run[i].clients[name].pending
    requires at < |run[i].log| && run[i].log[at] == Submit(run[i].clients[name].pending.value)
    ensures Enabled(v, run[j], Deliver(name, at)) && at < |run[j].log|
    ensures OutcomeAt(v.engine, v.start, run[j].log, at) == OutcomeAt(v.engine, v.start, run[i].log, at)
  {
    LogOfLater(v, run, actions, i, j);
    AtPrefix(v.engine, v.start, run[i].log, run[j].log[|run[i].log|..], at);
  }

  lemma {:induction false} LogOfLater(v: Service, run: seq<System>, actions: seq<Action>, i: nat, j: nat)
    requires Run(v, run, actions) && i <= j < |run|
    ensures run[i].log <= run[j].log && run[j].log == run[i].log + run[j].log[|run[i].log|..]
    decreases j - i
  {
    if i < j {
      assert Enabled(v, run[i], actions[i]) && run[i + 1] == Next(v, run[i], actions[i]);
      LogGrows(v, run[i], actions[i]);
      LogOfLater(v, run, actions, i + 1, j);
    }
  }

  lemma SettledNow(v: Service, s: System, a: Action, name: string)
    requires Inv(v, s) && Enabled(v, s, a) && name in s.clients && s.clients[name].pending.Some?
    requires Next(v, s, a).clients[name] != s.clients[name]
    ensures exists answer :: (s.clients[name].pending.value, answer) in Next(v, s, a).settled
  {
    var w := s.clients[name].pending.value;
    assert GoodClient(Now(v, s), name, s.clients[name]);
    if a.Deliver? {
      assert (w, Decided(OutcomeAt(v.engine, v.start, s.log, a.at))) in Next(v, s, a).settled;
    } else {
      assert (w, TurnedDown) in Next(v, s, a).settled;
    }
  }
}
