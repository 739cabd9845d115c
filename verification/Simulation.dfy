/** The DB-API connection class is one of the connections of the world: whatever one of its
    operations does to its fields is a sequence of the world's steps, as long as the service
    answers truthfully. */
module Simulation {
  import opened Common
  import opened Store
  import C = Client
  import D = DbApi
  import P = Protocol
  import opened Serializability

  /** The fields of a connection, of its native connection, and what its previews showed. */
  datatype Fields = Fields(tx: D.Tx, observed: set<D.Preview>, native: C.Retry)

  ghost function FieldsOf(c: D.Connection): Fields
    reads c, c.native
  {
    Fields(c.State(), c.observed, c.native.State())
  }

  /** The world's session `name` is what these fields show. */
  ghost predicate Stands(w: World, name: string, f: Fields)
  {
    && name in w.net.clients && w.net.clients[name] == f.native
    && if name !in w.active then f.tx.version.Some? ==> Leftover(f)
       else if w.active[name].left then f.tx.version.None? && f.native.pending.Some? && Unresolved(w.active[name])
       else f.tx.version.Some? && SameTx(w.active[name], f)
  }

  /** The world's transaction is the one in the fields.  An aborted one can only be given up, so
      what it has staged no longer matters; while the fate of its commit is open it shows as
      aborted in the class and as unresolved in the world. */
  ghost predicate SameTx(t: Tx, f: Fields)
    requires f.tx.version.Some?
  {
    if f.tx.failed then if f.native.pending.Some? then Unresolved(t) else t.failed
    else
      && t.version == f.tx.version.value && t.staged == f.tx.statements && t.observed == f.observed
      && !t.failed && !t.committing && f.native.pending.None?
  }

  /** What a commit leaves behind that `resolve_pending` found applied: the transaction is
      finished, and its fields stay until the connection is rolled back. */
  predicate Leftover(f: Fields)
  {
    f.tx.failed && f.native.pending.None?
  }

  /** Steps of the world, one after the other. */
  ghost predicate Path(x: Setting, worlds: seq<World>, actions: seq<Action>)
  {
    && |worlds| == |actions| + 1
    && forall i | 0 <= i < |actions| ::
         Enabled(x, worlds[i], actions[i]) && worlds[i + 1] == Next(x, worlds[i], actions[i])
  }

  /** From `w` the steps lead to `v`, and all of them are of the session `name`. */
  ghost predicate Leads(x: Setting, w: World, v: World, name: string)
  {
    exists worlds, actions :: PathOf(x, w, v, name, worlds, actions)
  }

  ghost predicate PathOf(x: Setting, w: World, v: World, name: string, worlds: seq<World>, actions: seq<Action>)
  {
    && Path(x, worlds, actions) && worlds[0] == w && worlds[|actions|] == v
    && forall a | a in actions :: Own(a, name)
  }

  /** The steps that a connection takes by itself; discovering the epoch is one of them. */
  predicate Own(a: Action, name: string)
  {
    if a.Net? then a.action == P.Discover(name) else a.session == name
  }

  lemma Stay(x: Setting, w: World, name: string)
    ensures Leads(x, w, w, name)
  {
    assert PathOf(x, w, w, name, [w], []);
  }

  lemma OneMoreStep(x: Setting, w: World, v: World, name: string, a: Action)
    requires Leads(x, w, v, name) && Own(a, name) && Enabled(x, v, a)
    ensures Leads(x, w, Next(x, v, a), name)
  {
    var worlds, actions :| PathOf(x, w, v, name, worlds, actions);
    var u := Next(x, v, a);
    assert PathOf(x, w, u, name, worlds + [u], actions + [a]);
  }

  lemma Onward(x: Setting, w: World, v: World, u: World, name: string)
    requires Leads(x, w, v, name) && Leads(x, v, u, name)
    ensures Leads(x, w, u, name)
  {
    var first, those :| PathOf(x, w, v, name, first, those);
    var second, these :| PathOf(x, v, u, name, second, these);
    var n, all, both := |those|, first + second[1..], those + these;
    forall i | 0 <= i < |both| ensures Enabled(x, all[i], both[i]) && all[i + 1] == Next(x, all[i], both[i]) {
      if i < n {
        assert Enabled(x, first[i], those[i]);
      } else {
        assert all[i] == second[i - n] && Enabled(x, second[i - n], these[i - n]);
      }
    }
    assert PathOf(x, w, u, name, all, both);
  }

  // ------------------------------------------------------------ inside a transaction

  /** The service answered truthfully: epoch and read version were those of a fresh read, and
      each new preview was made on some replica at that version. */
  ghost predicate Honest(x: Setting, w: World, before: Fields, after: Fields)
  {
    var now := P.Now(x.service, w.net);
    && (after.native.epoch != before.native.epoch ==>
          before.native.epoch.None? && after.native.epoch == Some(now.epoch))
    && (before.tx.version.None? && after.tx.version.Some? ==> after.tx.version.value == now.version)
    && forall p | p in after.observed - before.observed :: ShownSomewhere(x, w, p)
  }

  ghost predicate ShownSomewhere(x: Setting, w: World, p: D.Preview)
  {
    exists at: nat :: at <= |w.net.log| && Truthful(x, Seen(x, w, at), p)
  }

  lemma ShownStays(x: Setting, v: World, u: World, p: D.Preview)
    requires u.net.log == v.net.log && ShownSomewhere(x, v, p)
    ensures ShownSomewhere(x, u, p)
  {
    var at: nat :| at <= |v.net.log| && Truthful(x, Seen(x, v, at), p);
    assert Truthful(x, Seen(x, u, at), p);
  }

  /** What every operation short of a commit, a rollback and a close does to the fields: the
      read version may be fetched but never changes, previews are added, the statements are
      any that the previews back, and the transaction may be aborted. */
  ghost predicate Works(before: Fields, after: Fields)
  {
    && D.Sound(before.tx, before.observed) && D.Sound(after.tx, after.observed)
    && before.native.pending.None? && after.native == before.native.(epoch := after.native.epoch)
    && before.observed <= after.observed
    && (before.tx.version.Some? ==> after.tx.version == before.tx.version)
    && (before.tx.version.Some? ==> before.native.epoch.Some?)
    && (after.tx.version.Some? ==> after.native.epoch.Some? && after.tx.version.value <= C.MAX_I64)
    && (before.tx.failed ==> after == before)
  }

  lemma PreviewStep(x: Setting, w: World, v: World, name: string, p: D.Preview) returns (u: World)
    requires Leads(x, w, v, name) && Free(v, name)
    requires p.version == v.active[name].version && ShownSomewhere(x, v, p)
    ensures Leads(x, w, u, name) && Free(u, name) && u.net == v.net
    ensures u.active[name] == v.active[name].(observed := v.active[name].observed + {p})
  {
    var at: nat :| at <= |v.net.log| && Truthful(x, Seen(x, v, at), p);
    OneMoreStep(x, w, v, name, Preview(name, p, at));
    u := Next(x, v, Preview(name, p, at));
  }

  lemma {:induction false} PreviewSteps(x: Setting, w: World, v: World, name: string, new': set<D.Preview>)
    returns (u: World)
    requires Leads(x, w, v, name) && Free(v, name)
    requires forall p | p in new' :: p.version == v.active[name].version && ShownSomewhere(x, v, p)
    ensures Leads(x, w, u, name) && Free(u, name) && u.net == v.net
    ensures u.active[name] == v.active[name].(observed := v.active[name].observed + new')
    decreases |new'|
  {
    if new' == {} {
      u := v;
      assert v.active[name].observed + new' == v.active[name].observed;
    } else {
      var p := SomeElement(new');
      var next := PreviewStep(x, w, v, name, p);
      forall q | q in new' - {p} ensures ShownSomewhere(x, next, q) {
        ShownStays(x, v, next, q);
      }
      u := PreviewSteps(x, w, next, name, new' - {p});
      assert v.active[name].observed + {p} + (new' - {p}) == v.active[name].observed + new';
    }
  }

  lemma BeginStep(x: Setting, w: World, name: string, before: Fields, after: Fields) returns (v: World)
    requires Stands(w, name, before) && Works(before, after) && Honest(x, w, before, after)
    requires !before.tx.failed && after.tx.version.Some?
    ensures Leads(x, w, v, name) && Free(v, name) && v.net.log == w.net.log && v.net.clients[name] == after.native
    ensures var t := v.active[name];
            && t.version == after.tx.version.value && t.staged == before.tx.statements && t.observed == before.observed
            && !t.left
  {
    Stay(x, w, name);
    v := w;
    if before.tx.version.None? {
      OneMoreStep(x, w, w, name, Begin(name));
      v := Next(x, w, Begin(name));
    }
  }

  /** Any operation inside a transaction is a sequence of the world's steps: at most one
      begin, then previews, one change of the staged statements, and perhaps an abort. */
  lemma WorkIsSteps(x: Setting, w: World, name: string, before: Fields, after: Fields) returns (v: World)
    requires Stands(w, name, before) && Works(before, after) && Honest(x, w, before, after)
    ensures Leads(x, w, v, name) && Stands(v, name, after) && v.net.log == w.net.log
  {
    if before.tx.failed || after.tx.version.None? {
      Stay(x, w, name);
      v := w;
      if after.native.epoch != before.native.epoch {
        OneMoreStep(x, w, w, name, Net(P.Discover(name)));
        v := Next(x, w, Net(P.Discover(name)));
      }
      return;
    }
    v := BeginStep(x, w, name, before, after);
    forall p | p in after.observed - before.observed ensures ShownSomewhere(x, v, p) {
      ShownStays(x, w, v, p);
    }
    v := PreviewSteps(x, w, v, name, after.observed - before.observed);
    assert before.observed + (after.observed - before.observed) == after.observed;
    OneMoreStep(x, w, v, name, Restage(name, after.tx.statements));
    v := Next(x, v, Restage(name, after.tx.statements));
    if after.tx.failed {
      OneMoreStep(x, w, v, name, Fail(name));
      v := Next(x, v, Fail(name));
    }
  }

  // ------------------------------------------------------------------ ending a transaction

  /** A rollback, a close, a lost connection, and an autocommit connection that starts over. */
  lemma ClearIsSteps(x: Setting, w: World, name: string, before: Fields) returns (v: World)
    requires Stands(w, name, before)
    ensures Leads(x, w, v, name) && v.net == w.net
    ensures forall f: Fields | f.tx.version.None? && f.native == before.native :: Stands(v, name, f)
    ensures before.native.pending.None? ==> name !in v.active
    ensures before.native.pending.Some? && name in w.active ==>
              name in v.active && v.active[name] == w.active[name].(left := true)
  {
    Stay(x, w, name);
    v := w;
    if name in w.active && !w.active[name].left {
      OneMoreStep(x, w, w, name, Abandon(name));
      v := Next(x, w, Abandon(name));
    }
  }

  /** A commit with nothing staged. */
  lemma EmptyCommitIsSteps(x: Setting, w: World, name: string, before: Fields) returns (v: World)
    requires Stands(w, name, before) && before.native.pending.None? && !before.tx.failed
    requires before.tx.statements == []
    ensures Leads(x, w, v, name) && Stands(v, name, Fields(D.Cleared(before.tx), {}, before.native)) && v.net == w.net
    ensures before.tx.version.Some? ==>
              name in w.active && exists d :: d in v.done && d.tx == w.active[name] && d.write.None?
  {
    Stay(x, w, name);
    v := w;
    if name in w.active {
      OneMoreStep(x, w, w, name, CommitNothing(name));
      v := Next(x, w, CommitNothing(name));
      assert Done(w.active[name], w.clock, |w.net.log|, None) in v.done;
    }
  }

  /** What a connection shows while the fate of its commit is not known: the staged body is the
      pending write, and the transaction looks aborted. */
  function Awaiting(name: string, before: Fields, body: Body): Fields
    requires before.tx.version.Some? && before.native.epoch.Some?
  {
    Fields(before.tx.(failed := true), before.observed,
           C.Begin(name, before.native, Content(before.tx.version.value, body)))
  }

  /** The first half of a commit. */
  lemma CommitIsSteps(x: Setting, w: World, name: string, before: Fields, body: Body) returns (v: World)
    requires Stands(w, name, before) && before.tx.version.Some?
    requires before.native.pending.None? && before.native.epoch.Some? && before.native.sequence <= C.MAX_I64
    requires !before.tx.failed && before.tx.statements != [] && x.compose(before.tx.statements) == D.Good(body)
    ensures Leads(x, w, v, name) && v.net.log == w.net.log && v.net.sent == w.net.sent && name in v.active
    ensures Stands(v, name, Awaiting(name, before, body)) && v.active[name].staged == before.tx.statements
  {
    Stay(x, w, name);
    OneMoreStep(x, w, w, name, CommitStaged(name));
    v := Next(x, w, CommitStaged(name));
  }

  /** The step brings the session a word about its pending write: the outcome of an ordered
      copy, or a refusal at some door. */
  ghost predicate Brings(x: Setting, w: World, name: string, b: P.Action, word: C.Word)
  {
    && P.Enabled(x.service, w.net, b)
    && match b
       case Deliver(session, at) =>
         session == name && word == C.Of(OutcomeAt(x.service.engine, x.service.start, w.net.log, at).code)
       case TurnDown(session, refusal, _) => session == name && word == refusal
       case _ => false
  }

  /** The answer that the client got to its pending write, if it got any. */
  ghost predicate Heard(cluster: string, pending: Write, xs: seq<C.Exchange>, word: C.Word)
  {
    var r := C.Called(cluster, C.Call.Call(C.WriteOp, pending.id.sequence), xs);
    r.Ok? && r.value.word == Some(word)
  }

  /** The second half of a commit, at any later time and on whichever connection: the world's
      step makes of the session what `resolve_pending` makes of the fields when it gets that
      answer, and of an applied commit what `commit` makes of them. */
  lemma AnswerIsStep(x: Setting, w: World, name: string, before: Fields, b: P.Action, cluster: string,
                     xs: seq<C.Exchange>, word: C.Word)
    requires Stands(w, name, before) && before.native.pending.Some?
    requires Heard(cluster, before.native.pending.value, xs, word) && Brings(x, w, name, b, word)
    ensures Enabled(x, w, Net(b))
    ensures var v := Next(x, w, Net(b));
            var (retry, answer) := C.Resolved(cluster, before.native, xs);
            && Stands(v, name, Fields(before.tx, before.observed, retry))
            && (answer.Ok? ==> Stands(v, name, Fields(D.Cleared(before.tx), {}, retry)))
            && (answer.Ok? && name in w.active ==> Recorded(v, w.active[name], before.native.pending))
            && (answer.Err? && retry.pending.None? && name in w.active && !w.active[name].left ==>
                  name in v.active && v.active[name] == w.active[name].(failed := true))
  {
    var v := Next(x, w, Net(b));
    if b.Deliver? && OutcomeAt(x.service.engine, x.service.start, w.net.log, b.at).code == Applied {
      if name in w.active {
        assert Done(w.active[name], w.clock, |w.net.log|, before.native.pending) in v.done;
      }
    }
  }

  /** The transaction is among the finished ones, with that write. */
  ghost predicate Recorded(w: World, t: Tx, write: Option<Write>)
  {
    exists d :: d in w.done && d.tx == t && d.write == write
  }

  ghost predicate Reaches(x: Setting, w: World, name: string, after: Fields)
  {
    exists v :: Leads(x, w, v, name) && v.net == w.net && Stands(v, name, after)
  }

  /** Nothing has happened to the session between `v` and `u`. */
  ghost predicate Still(v: World, u: World, name: string)
  {
    && name in v.net.clients && name in u.net.clients && u.net.clients[name] == v.net.clients[name]
    && (name in u.active <==> name in v.active)
    && (name in v.active ==> u.active[name] == v.active[name])
  }

  /** From `v`, where the session waits for the fate of its write, any step that brings the
      answer the client got leads to what the class has become; a success is a finished
      transaction with that very write. */
  ghost predicate Concludes(x: Setting, v: World, name: string, cluster: string, xs: seq<C.Exchange>, after: Fields,
                            success: bool)
  {
    && name in v.net.clients && v.net.clients[name].pending.Some?
    && exists word :: Heard(cluster, v.net.clients[name].pending.value, xs, word)
                      && ConcludesBy(x, v, name, word, after, success)
  }

  ghost predicate ConcludesBy(x: Setting, v: World, name: string, word: C.Word, after: Fields, success: bool)
  {
    forall u, b | Still(v, u, name) && Brings(x, u, name, b, word) ::
      && Enabled(x, u, Net(b)) && Reaches(x, Next(x, u, Net(b)), name, after)
      && (success && name in v.active ==> Recorded(Next(x, u, Net(b)), v.active[name], v.net.clients[name].pending))
  }

  /** The world goes from `w` to `v`, which is where the class is, or which waits for the answer
      that takes it there. */
  ghost predicate Ends(x: Setting, w: World, v: World, name: string, cluster: string, xs: seq<C.Exchange>,
                       after: Fields, success: bool)
  {
    && Leads(x, w, v, name) && v.net.log == w.net.log
    && (Stands(v, name, after) || Concludes(x, v, name, cluster, xs, after, success))
  }

  /** What the fields may be after a write was resolved: those of the transaction still there,
      aborted, or cleared if nothing is pending any more. */
  ghost predicate Fits(before: Fields, retry: C.Retry, after: Fields)
  {
    && after.native == retry
    && (after == Fields(before.tx, before.observed, retry)
        || (if after.tx.version.Some? then before.tx.version.Some? && before.tx.failed && after.tx.failed
            else retry.pending.None?))
  }

  lemma AnswerReaches(x: Setting, w: World, name: string, before: Fields, b: P.Action, cluster: string,
                      xs: seq<C.Exchange>, word: C.Word, after: Fields)
    requires Stands(w, name, before) && before.native.pending.Some?
    requires Heard(cluster, before.native.pending.value, xs, word) && Brings(x, w, name, b, word)
    requires Fits(before, C.Resolved(cluster, before.native, xs).0, after)
    ensures Enabled(x, w, Net(b)) && Reaches(x, Next(x, w, Net(b)), name, after)
  {
    AnswerIsStep(x, w, name, before, b, cluster, xs, word);
    var v, retry := Next(x, w, Net(b)), C.Resolved(cluster, before.native, xs).0;
    var shown := Fields(before.tx, before.observed, retry);
    if after.tx.version.Some? || after == shown {
      Stay(x, v, name);
      assert Stands(v, name, after);
    } else {
      var u := ClearIsSteps(x, v, name, shown);
    }
  }

  /** A write that is resolved, seen from the world: it stays as it is while no answer comes. */
  lemma ResolutionEnds(x: Setting, v: World, name: string, before: Fields, cluster: string, xs: seq<C.Exchange>,
                       after: Fields)
    requires Stands(v, name, before) && before.native.pending.Some?
    requires Fits(before, C.Resolved(cluster, before.native, xs).0, after)
    ensures Stands(v, name, after)
            || Concludes(x, v, name, cluster, xs, after, C.Resolved(cluster, before.native, xs).1.Ok?)
  {
    var w := before.native.pending.value;
    var called := C.Called(cluster, C.Call.Call(C.WriteOp, w.id.sequence), xs);
    if called.Ok? {
      var word := called.value.word.value;
      forall u, b | Still(v, u, name) && Brings(x, u, name, b, word)
        ensures Enabled(x, u, Net(b)) && Reaches(x, Next(x, u, Net(b)), name, after)
        ensures C.Resolved(cluster, before.native, xs).1.Ok? && name in v.active ==>
                  Recorded(Next(x, u, Net(b)), v.active[name], before.native.pending)
      {
        AnswerReaches(x, u, name, before, b, cluster, xs, word, after);
        AnswerIsStep(x, u, name, before, b, cluster, xs, word);
      }
      assert ConcludesBy(x, v, name, word, after, C.Resolved(cluster, before.native, xs).1.Ok?);
    }
  }

  /** A commit of staged statements, from what the native connection makes of the write.  If the
      class cleared its fields behind a failure, so does the world. */
  lemma SubmissionEnds(x: Setting, w: World, name: string, before: Fields, body: Body, cluster: string,
                       epochXs: seq<C.Exchange>, xs: seq<C.Exchange>, after: Fields) returns (v: World)
    requires Stands(w, name, before) && before.tx.version.Some? && before.tx.version.value <= C.MAX_I64
    requires before.native.pending.None? && before.native.epoch.Some?
    requires !before.tx.failed && before.tx.statements != [] && x.compose(before.tx.statements) == D.Good(body)
    requires var content := Content(before.tx.version.value, body);
             var retry := C.Submitted(cluster, name, before.native, content, epochXs, xs).0;
             && after.native == retry
             && if after.tx.version.Some? then after.tx.failed else retry.pending.None?
    ensures var content := Content(before.tx.version.value, body);
            Ends(x, w, v, name, cluster, xs, after,
                 C.Submitted(cluster, name, before.native, content, epochXs, xs).1.Ok?)
  {
    if before.native.sequence < 1 || before.native.sequence > C.MAX_I64 {
      Stay(x, w, name);
      OneMoreStep(x, w, w, name, Fail(name));
      v := Next(x, w, Fail(name));
      if after.tx.version.None? {
        var u := ClearIsSteps(x, v, name, Fields(before.tx.(failed := true), before.observed, before.native));
        Onward(x, w, v, u, name);
        v := u;
      }
    } else {
      v := CommitIsSteps(x, w, name, before, body);
      ResolutionEnds(x, v, name, Awaiting(name, before, body), cluster, xs, after);
    }
  }

  // -------------------------------------------------------------- the operations themselves

  /** If the service was honest the world went from `w` to `v`, where the connection is what
      the class has become. */
  ghost predicate Follows(x: Setting, w: World, v: World, name: string, before: Fields, after: Fields)
  {
    Honest(x, w, before, after) ==> Leads(x, w, v, name) && Stands(v, name, after) && v.net.log == w.net.log
  }

  lemma Follow(x: Setting, w: World, name: string, before: Fields, after: Fields) returns (v: World)
    requires Stands(w, name, before) && (after == before || Works(before, after))
    ensures Follows(x, w, v, name, before, after)
  {
    v := w;
    if after == before {
      Stay(x, w, name);
    } else if Honest(x, w, before, after) {
      v := WorkIsSteps(x, w, name, before, after);
    }
  }

  /** `execute` in a transaction. */
  method Execute(c: D.Cursor, operation: D.Statement, net: D.Attempts, ghost x: Setting, ghost w: World,
                 ghost name: string)
    returns (error: Option<D.DbError>, answer: Option<C.Response>, ghost v: World)
    requires c.connection.Rest() && !c.connection.autocommit && Stands(w, name, FieldsOf(c.connection))
    modifies c`rowcount, c`lastrowid, c.connection
    modifies c.connection.native`index, c.connection.native`epoch
    modifies c.connection.native`pending, c.connection.native`sequence
    ensures Follows(x, w, v, name, old(FieldsOf(c.connection)), FieldsOf(c.connection))
  {
    ghost var before := FieldsOf(c.connection);
    error, answer := c.Execute(operation, net);
    v := Follow(x, w, name, before, FieldsOf(c.connection));
  }

  /** `executemany` in a transaction. */
  method ExecuteMany(c: D.Cursor, operation: D.Text, rows: seq<D.Params>, net: nat -> D.Attempts, ghost x: Setting,
                     ghost w: World, ghost name: string)
    returns (error: Option<D.DbError>, answers: seq<C.Response>, ghost v: World)
    requires c.connection.Rest() && !c.connection.autocommit && Stands(w, name, FieldsOf(c.connection))
    modifies c`rowcount, c`lastrowid, c.connection
    modifies c.connection.native`index, c.connection.native`epoch
    modifies c.connection.native`pending, c.connection.native`sequence
    ensures Follows(x, w, v, name, old(FieldsOf(c.connection)), FieldsOf(c.connection))
  {
    ghost var before := FieldsOf(c.connection);
    error, answers := c.ExecuteMany(operation, rows, net);
    v := Follow(x, w, name, before, FieldsOf(c.connection));
  }

  /** A query in autocommit is a read of its own. */
  method Query(c: D.Cursor, operation: D.Statement, net: D.Attempts, ghost x: Setting, ghost w: World,
               ghost name: string)
    returns (error: Option<D.DbError>, answer: Option<C.Response>, ghost v: World)
    requires c.connection.Rest() && c.connection.autocommit && Stands(w, name, FieldsOf(c.connection))
    requires c.connection.dialect.kind(operation.text) == D.QueryKind
    modifies c`rowcount, c`lastrowid, c.connection
    modifies c.connection.native`index, c.connection.native`epoch
    modifies c.connection.native`pending, c.connection.native`sequence
    ensures Stands(v, name, FieldsOf(c.connection)) && v.net == w.net
    ensures answer.Some? ==>
              var now := P.Now(x.service, w.net);
              var p := D.Preview(now.version, [], c.connection.Bound(Some(operation)), answer.value);
              if Truthful(x, now, p) then Leads(x, w, v, name) && Alone(w, p) in v.done else v == w
    ensures answer.None? ==> v == w
  {
    error, answer := c.Execute(operation, net);
    v := w;
    if answer.Some? {
      ghost var now := P.Now(x.service, w.net);
      ghost var p := D.Preview(now.version, [], c.connection.Bound(Some(operation)), answer.value);
      if Truthful(x, now, p) {
        Stay(x, w, name);
        OneMoreStep(x, w, w, name, Read(name, p));
        v := Next(x, w, Read(name, p));
      }
    }
  }

  /** `savepoint` */
  method Savepoint(c: D.Connection, mark: string, xs: seq<C.Exchange>, ghost x: Setting, ghost w: World,
                   ghost name: string)
    returns (error: Option<D.DbError>, ghost v: World)
    requires c.Rest() && Stands(w, name, FieldsOf(c))
    modifies c, c.native`index, c.native`epoch
    ensures Follows(x, w, v, name, old(FieldsOf(c)), FieldsOf(c))
  {
    ghost var before := FieldsOf(c);
    error := c.Savepoint(mark, xs);
    v := Follow(x, w, name, before, FieldsOf(c));
  }

  /** `rollback_savepoint` restores statements that the previews back. */
  method RollbackSavepoint(c: D.Connection, mark: string, ghost x: Setting, ghost w: World, ghost name: string)
    returns (r: D.Prepared<nat>, ghost v: World)
    requires c.Rest() && Stands(w, name, FieldsOf(c))
    modifies c
    ensures Leads(x, w, v, name) && Stands(v, name, FieldsOf(c)) && v.net.log == w.net.log
  {
    ghost var before := FieldsOf(c);
    r := c.RollbackSavepoint(mark);
    v := Follow(x, w, name, before, FieldsOf(c));
  }

  /** `rollback` */
  method Rollback(c: D.Connection, ghost x: Setting, ghost w: World, ghost name: string)
    returns (error: Option<D.DbError>, ghost v: World)
    requires c.Valid() && Stands(w, name, FieldsOf(c))
    modifies c
    ensures Leads(x, w, v, name) && Stands(v, name, FieldsOf(c)) && v.net == w.net
    ensures error.None? ==> name !in v.active
  {
    ghost var before := FieldsOf(c);
    error := c.Rollback();
    Stay(x, w, name);
    v := w;
    if error.None? {
      v := ClearIsSteps(x, w, name, before);
    }
  }

  /** `close`, at any moment, also while the fate of a commit is not known. */
  method Close(c: D.Connection, ghost x: Setting, ghost w: World, ghost name: string) returns (ghost v: World)
    requires c.Valid() && Stands(w, name, FieldsOf(c))
    modifies c, c.native`closed
    ensures Leads(x, w, v, name) && Stands(v, name, FieldsOf(c)) && v.net == w.net
    ensures name in v.active ==> v.active[name].left
  {
    ghost var before := FieldsOf(c);
    c.Close();
    v := ClearIsSteps(x, w, name, before);
  }

  /** `commit` */
  method Commit(c: D.Connection, epochXs: seq<C.Exchange>, xs: seq<C.Exchange>, ghost x: Setting, ghost w: World)
    returns (error: Option<D.DbError>, ghost v: World)
    requires c.Valid() && Stands(w, c.native.session, FieldsOf(c)) && x.compose == c.dialect.compose
    modifies c, c.native`index, c.native`pending, c.native`sequence, c.native`epoch
    ensures Ends(x, w, v, c.native.session, c.native.cluster, xs, FieldsOf(c), error.None?)
  {
    ghost var name, before := c.native.session, FieldsOf(c);
    if c.Error(false).None? && c.statements != [] {
      c.StagedComposes();
    }
    error := c.Commit(epochXs, xs);
    Stay(x, w, name);
    v := w;
    if D.Blocked(before.tx, before.native.pending, false).Some? {
    } else if before.tx.statements == [] {
      v := EmptyCommitIsSteps(x, w, name, before);
    } else {
      var body := x.compose(before.tx.statements).value;
      v := SubmissionEnds(x, w, name, before, body, c.native.cluster, epochXs, xs, FieldsOf(c));
    }
  }

  // ------------------------------------------------------------------ autocommitted writes

  /** Autocommitted statements before their commit: staged under the read version fetched for
      them. */
  ghost predicate StagedAlone(before: Fields, cluster: string, begin: seq<C.Exchange>, staged: seq<D.Statement>,
                              staging: Fields)
  {
    var (epoch, version) := C.Begun(before.native.epoch, C.Asked(cluster, C.BeginOp, begin));
    && version.Ok? && staging.native == before.native.(epoch := epoch)
    && staging.tx == before.tx.(version := Some(version.value), statements := staged)
  }

  /** From the staged statements on: the commit, in the fields as the class leaves them. */
  ghost predicate CommittedAlone(name: string, cluster: string, staging: Fields, body: Body,
                                 epochXs: seq<C.Exchange>, xs: seq<C.Exchange>, after: Fields, success: bool)
    requires staging.tx.version.Some?
  {
    var (retry, answer) :=
      C.Submitted(cluster, name, staging.native, Content(staging.tx.version.value, body), epochXs, xs);
    && after.native == retry && (success <==> answer.Ok?)
    && if after.tx.version.Some? then after.tx.failed else retry.pending.None?
  }

  /** At most a begin, the previews, one change of the staged list, and the commit. */
  lemma AutocommitEnds(x: Setting, w: World, name: string, before: Fields, staging: Fields, body: Body,
                       cluster: string, epochXs: seq<C.Exchange>, xs: seq<C.Exchange>, after: Fields, success: bool)
    returns (v: World)
    requires Stands(w, name, before) && Works(before, staging) && Honest(x, w, before, staging)
    requires staging.tx.version.Some? && !staging.tx.failed && staging.tx.statements != []
    requires x.compose(staging.tx.statements) == D.Good(body)
    requires CommittedAlone(name, cluster, staging, body, epochXs, xs, after, success)
    ensures Ends(x, w, v, name, cluster, xs, after, success)
  {
    var u := WorkIsSteps(x, w, name, before, staging);
    v := SubmissionEnds(x, u, name, staging, body, cluster, epochXs, xs, after);
    Onward(x, w, u, v, name);
  }

  /** One statement, shown on its own. */
  lemma OneShown(before: Fields, cluster: string, begin: seq<C.Exchange>, operation: D.Statement, response: C.Response)
    returns (staging: Fields)
    requires D.Sound(before.tx, before.observed) && before.tx.version.None? && before.native.pending.None?
    requires !before.tx.failed && C.Begun(before.native.epoch, C.Asked(cluster, C.BeginOp, begin)).1.Ok?
    ensures StagedAlone(before, cluster, begin, [operation], staging) && Works(before, staging)
    ensures staging.observed == {D.Preview(staging.tx.version.value, [operation], None, response)}
  {
    var (epoch, version) := C.Begun(before.native.epoch, C.Asked(cluster, C.BeginOp, begin));
    staging := Fields(before.tx.(version := Some(version.value), statements := [operation]),
                      {D.Preview(version.value, [operation], None, response)}, before.native.(epoch := epoch));
    assert [operation][..1] == [operation];
  }

  /** `execute` of a write in autocommit. */
  method ExecuteAlone(c: D.Cursor, operation: D.Statement, net: D.Attempts, ghost x: Setting, ghost w: World)
    returns (error: Option<D.DbError>, answer: Option<C.Response>, ghost staging: Fields, ghost v: World)
    requires c.connection.Rest() && c.connection.autocommit
    requires Stands(w, c.connection.native.session, FieldsOf(c.connection))
    requires c.connection.dialect.kind(operation.text) == D.WriteKind && x.compose == c.connection.dialect.compose
    modifies c`rowcount, c`lastrowid, c.connection
    modifies c.connection.native`index, c.connection.native`epoch
    modifies c.connection.native`pending, c.connection.native`sequence
    ensures Honest(x, w, old(FieldsOf(c.connection)), staging) ==>
              Ends(x, w, v, c.connection.native.session, c.connection.native.cluster, net.commit,
                   FieldsOf(c.connection), error.None?)
    ensures var before, cluster := old(FieldsOf(c.connection)), c.connection.native.cluster;
            var reply := c.Reply(before.tx, before.native, operation, true, net);
            if old(c.Error()).Some? || reply.Bad? then staging == FieldsOf(c.connection)
            else
              && StagedAlone(before, cluster, net.begin, [operation], staging)
              && staging.observed == {D.Preview(staging.tx.version.value, [operation], None, reply.value)}
  {
    ghost var name, cluster, before := c.connection.native.session, c.connection.native.cluster, FieldsOf(c.connection);
    ghost var reply, blocked := c.Reply(before.tx, before.native, operation, true, net), c.Error();
    error, answer := c.Execute(operation, net);
    staging, v := FieldsOf(c.connection), w;
    if blocked.Some? || reply.Bad? {
      v := Follow(x, w, name, before, staging);
    } else {
      staging := OneShown(before, cluster, net.begin, operation, reply.value);
      if Honest(x, w, before, staging) {
        v := AutocommitEnds(x, w, name, before, staging, x.compose([operation]).value, cluster, net.epoch, net.commit,
                            FieldsOf(c.connection), error.None?);
      }
    }
  }

  /** The previews of a batch back each of its prefixes. */
  lemma {:induction false} ShownPasses(c: D.Cursor, version: nat, operation: D.Text, rows: seq<D.Params>,
                                       answers: seq<C.Response>, k: nat)
    requires 1 <= k <= |answers| <= |rows|
    ensures D.Passed(c.Shown(Some(version), [], operation, rows, answers), version, c.Batch(operation, rows)[..k])
    ensures forall p | p in c.Shown(Some(version), [], operation, rows, answers) :: p.version == version
  {
    var n := |answers|;
    var shown := c.Shown(Some(version), [], operation, rows, answers);
    if n > 1 { ShownPasses(c, version, operation, rows, answers[..n - 1], if k < n then k else n - 1); }
    if k == n {
      assert [] + c.Batch(operation, rows[..n]) == c.Batch(operation, rows)[..n];
      assert D.Preview(version, c.Batch(operation, rows)[..n], None, answers[n - 1]) in shown;
    } else {
      assert c.Shown(Some(version), [], operation, rows, answers[..n - 1]) <= shown;
    }
  }

  lemma BatchShown(c: D.Cursor, before: Fields, cluster: string, begin: seq<C.Exchange>, operation: D.Text,
                   rows: seq<D.Params>, answers: seq<C.Response>) returns (staging: Fields)
    requires D.Sound(before.tx, before.observed) && before.tx.version.None? && before.native.pending.None?
    requires !before.tx.failed && C.Begun(before.native.epoch, C.Asked(cluster, C.BeginOp, begin)).1.Ok?
    requires |answers| == |rows| > 0
    ensures StagedAlone(before, cluster, begin, c.Batch(operation, rows), staging) && Works(before, staging)
    ensures staging.observed == c.Shown(staging.tx.version, [], operation, rows, answers)
  {
    var (epoch, version) := C.Begun(before.native.epoch, C.Asked(cluster, C.BeginOp, begin));
    staging := Fields(before.tx.(version := Some(version.value), statements := c.Batch(operation, rows)),
                      c.Shown(Some(version.value), [], operation, rows, answers), before.native.(epoch := epoch));
    ShownPasses(c, version.value, operation, rows, answers, 1);
    forall k | 1 <= k <= |rows| ensures D.Passed(staging.observed, version.value, c.Batch(operation, rows)[..k]) {
      ShownPasses(c, version.value, operation, rows, answers, k);
    }
  }

  /** `executemany` in autocommit. */
  method ExecuteManyAlone(c: D.Cursor, operation: D.Text, rows: seq<D.Params>, net: nat -> D.Attempts,
                          ghost x: Setting, ghost w: World)
    returns (error: Option<D.DbError>, answers: seq<C.Response>, ghost staging: Fields, ghost v: World)
    requires c.connection.Rest() && c.connection.autocommit && x.compose == c.connection.dialect.compose
    requires Stands(w, c.connection.native.session, FieldsOf(c.connection))
    modifies c`rowcount, c`lastrowid, c.connection
    modifies c.connection.native`index, c.connection.native`epoch
    modifies c.connection.native`pending, c.connection.native`sequence
    ensures Honest(x, w, old(FieldsOf(c.connection)), staging) ==>
              Ends(x, w, v, c.connection.native.session, c.connection.native.cluster, net(|rows|).commit,
                   FieldsOf(c.connection), error.None?)
    ensures var before, cluster := old(FieldsOf(c.connection)), c.connection.native.cluster;
            if !Batching(old(c.Error()), c.connection.dialect.kind(operation), rows) || |answers| != |rows| then
              staging == FieldsOf(c.connection)
            else
              && StagedAlone(before, cluster, net(0).begin, c.Batch(operation, rows), staging)
              && staging.observed == c.Shown(staging.tx.version, [], operation, rows, answers)
  {
    ghost var name, cluster, before := c.connection.native.session, c.connection.native.cluster, FieldsOf(c.connection);
    ghost var batching := Batching(c.Error(), c.connection.dialect.kind(operation), rows);
    error, answers := c.ExecuteMany(operation, rows, net);
    staging, v := FieldsOf(c.connection), w;
    if !batching || |answers| != |rows| {
      v := Follow(x, w, name, before, staging);
    } else {
      assert c.RowReply(before.tx, before.native, operation, rows, 0, net).Good?;
      staging := BatchShown(c, before, cluster, net(0).begin, operation, rows, answers);
      if Honest(x, w, before, staging) {
        v := AutocommitEnds(x, w, name, before, staging, x.compose(c.Batch(operation, rows)).value, cluster,
                            net(|rows|).epoch, net(|rows|).commit, FieldsOf(c.connection), error.None?);
      }
    }
  }

  /** The call gets past its checks. */
  predicate Batching(blocked: Option<D.DbError>, kind: D.Kind, rows: seq<D.Params>)
  {
    blocked.None? && kind == D.WriteKind && 1 <= |rows| <= 8
  }

  // ------------------------------------------------------------------------------- recovery

  /** `resolve_pending` on the native connection under a DB-API connection, whose fields it does
      not touch. */
  method ResolvePending(c: D.Connection, xs: seq<C.Exchange>, ghost x: Setting, ghost w: World)
    returns (r: C.Result<C.Response>)
    requires c.Valid() && Stands(w, c.native.session, FieldsOf(c))
    modifies c.native`index, c.native`pending, c.native`sequence
    ensures c.Valid() && c.State() == old(c.State())
    ensures Ends(x, w, w, c.native.session, c.native.cluster, xs, FieldsOf(c), r.Ok?)
  {
    ghost var name, before := c.native.session, FieldsOf(c);
    r := c.native.ResolvePending(xs);
    Stay(x, w, name);
    if before.native.pending.Some? && !c.native.closed {
      ResolutionEnds(x, w, name, before, c.native.cluster, xs, FieldsOf(c));
    }
  }

  /** Recovery after the connection was closed or lost: a new connection opened from the saved
      write is the session as the world knows it, with the old transaction left behind. */
  method Recover(cluster: string, endpoints: nat, saved: Write, dialect: D.Dialect, autocommit: bool,
                 ghost x: Setting, ghost w: World, ghost name: string, ghost before: Fields)
    returns (c: D.Connection, ghost v: World)
    requires endpoints > 0 && P.Inv(x.service, w.net)
    requires Stands(w, name, before) && before.native.pending == Some(saved)
    ensures fresh(c) && c.Rest() && c.native.session == name && Leads(x, w, v, name) && v.net == w.net
    ensures Stands(v, name, FieldsOf(c)) && FieldsOf(c).native == before.native
    ensures name in w.active ==> name in v.active && v.active[name] == w.active[name].(left := true)
  {
    var native := new C.Connection(cluster, endpoints, Some(saved), "");
    c := new D.Connection(dialect, native, autocommit);
    assert P.GoodClient(P.Now(x.service, w.net), name, before.native);
    v := ClearIsSteps(x, w, name, before);
  }
}
