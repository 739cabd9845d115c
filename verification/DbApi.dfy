/** The DB-API layer: statements staged in the client, previewed at one read version,
    committed as one body; savepoints, the aborted flag, autocommit and executemany. */
module DbApi {
  import opened Common
  import opened Store
  import C = Client

  type Text(==, !new)
  type Params(==, !new)

  datatype Statement = Statement(text: Text, params: Params)

  datatype Kind = QueryKind | WriteKind | Unclassified(error: DbError)

  datatype DbError =
    | InterfaceError | OperationalError(pending: Option<Write>) | SerializationError
    | IntegrityError | ProgrammingError | DataError | NotSupportedError

  /** What leaves a native call or a bound-value check, or is a DB-API error already. */
  datatype Raised = Native(failure: C.Failure) | Db(error: DbError)

  datatype Prepared<+T> = Good(value: T) | Bad(raised: Raised)

  /** The pure text functions: classification, joining the staged statements into a body,
      and binding a query. */
  datatype Dialect = Dialect(
    kind: Text -> Kind,
    compose: seq<Statement> -> Prepared<Body>,
    bind: Statement -> Prepared<Query>)

  function Translate(f: C.Failure, pending: Option<Write>): DbError
  {
    match f
    case SerializationError => DbError.SerializationError
    case ConstraintError => IntegrityError
    case UnknownOutcome(w) => OperationalError(Some(w))
    case PendingWriteError => OperationalError(pending)
    case ConnectionLost => OperationalError(pending)
    case Closed => OperationalError(pending)
    case SessionError(_) => ProgrammingError
    case QueryError(_) => ProgrammingError
    case ValueError => DataError
  }

  function Raise(r: Raised, pending: Option<Write>): DbError
  {
    match r
    case Native(f) => Translate(f, pending)
    case Db(error) => error
  }

  /** The failures that abort a transaction: another revision, or a lost connection. */
  predicate Aborts(r: Raised)
  {
    r.Native? && (r.failure == C.SerializationError || r.failure == C.ConnectionLost || r.failure == C.Closed)
  }

  // ------------------------------------------------- errors, from what the service answers

  /** What a read of the service is to the caller: a conflict asks for the transaction to be run
      again, a constraint is an integrity error, and everything else that the service refuses is
      a programming error. */
  ghost predicate WordRaises(word: C.Word, error: Option<DbError>)
  {
    match word
    case Of(Applied) => error == None
    case Of(Conflict) => error == Some(DbError.SerializationError)
    case Of(Constraint) => error == Some(IntegrityError)
    case _ => error == Some(ProgrammingError)
  }

  ghost predicate Unanswered(cluster: string, op: C.Operation, xs: seq<C.Exchange>)
  {
    forall x | x in xs :: !C.Final(cluster, C.Call.Call(op, 0), x)
  }

  /** A query or a preview: the first answer that ends the call decides, and while there is none
      the service is not operational. */
  ghost predicate CallTold(cluster: string, op: C.Operation, xs: seq<C.Exchange>, pending: Option<Write>,
                           error: Option<DbError>, answer: Option<C.Response>)
  {
    || (Unanswered(cluster, op, xs) && error == Some(OperationalError(pending)) && answer == None)
    || exists n: nat ::
         && C.FirstFinal(cluster, C.Call.Call(op, 0), xs, n)
         && WordRaises(xs[n].response.word.value, error)
         && answer == if error.None? then Some(xs[n].response) else None
  }

  /** The begin of a transaction: also an answer without a usable epoch or revision is none. */
  ghost predicate BeginTold(cluster: string, xs: seq<C.Exchange>, pending: Option<Write>,
                            error: Option<DbError>, version: Option<nat>)
  {
    || (Unanswered(cluster, C.BeginOp, xs) && error == Some(OperationalError(pending)) && version == None)
    || exists n: nat :: C.FirstFinal(cluster, C.Call.Call(C.BeginOp, 0), xs, n)
                        && BeginRaises(xs[n].response, pending, error, version)
  }

  ghost predicate BeginRaises(x: C.Response, pending: Option<Write>, error: Option<DbError>, version: Option<nat>)
    requires x.word.Some?
  {
    if x.word.value != C.Of(Applied) then WordRaises(x.word.value, error) && version == None
    else if (x.epoch.None? || 0 <= x.epoch.value <= 0x7fff_ffff_ffff_ffff)
            && x.version.Some? && 1 <= x.version.value <= 0x7fff_ffff_ffff_ffff then
      error == None && version == Some(x.version.value)
    else error == Some(OperationalError(pending)) && version == None
  }

  /** A commit that went out as `w`: done or rejected for a reason, or still not known, and then
      the error carries that very write. */
  ghost predicate CommitTold(cluster: string, w: Write, xs: seq<C.Exchange>, error: Option<DbError>)
  {
    var call := C.Call.Call(C.WriteOp, w.id.sequence);
    || ((forall x | x in xs :: !C.Final(cluster, call, x)) && error == Some(OperationalError(Some(w))))
    || exists n: nat :: C.FirstFinal(cluster, call, xs, n) && CommitRaises(xs[n].response.word.value, w, error)
  }

  ghost predicate CommitRaises(word: C.Word, w: Write, error: Option<DbError>)
  {
    match word
    case Of(Applied) => error == None
    case Of(Conflict) => error == Some(DbError.SerializationError)
    case Of(Constraint) => error == Some(IntegrityError)
    case Of(_) => error == Some(ProgrammingError)
    case InvalidRequest => error == Some(ProgrammingError)
    case Unsupported => error == Some(ProgrammingError)
    case _ => error == Some(OperationalError(Some(w)))
  }

  lemma CallMeaning(cluster: string, op: C.Operation, xs: seq<C.Exchange>, pending: Option<Write>)
    ensures var r := C.Asked(cluster, op, xs);
            CallTold(cluster, op, xs, pending, if r.Ok? then None else Some(Translate(r.failure, pending)),
                     if r.Ok? then Some(r.value) else None)
  {
    C.AskedMeaning(cluster, op, xs);
    var r, call := C.Asked(cluster, op, xs), C.Call.Call(op, 0);
    if exists x | x in xs :: C.Final(cluster, call, x) {
      var n: nat :| C.FirstFinal(cluster, call, xs, n) &&
                    C.WordMeans(xs[n].response.word.value, C.Ok(xs[n].response), r);
      assert WordRaises(xs[n].response.word.value, if r.Ok? then None else Some(Translate(r.failure, pending)));
    }
  }

  lemma BeginMeaning(cluster: string, known: Option<nat>, xs: seq<C.Exchange>, pending: Option<Write>)
    ensures var r := C.Begun(known, C.Asked(cluster, C.BeginOp, xs)).1;
            BeginTold(cluster, xs, pending, if r.Ok? then None else Some(Translate(r.failure, pending)),
                      if r.Ok? then Some(r.value) else None)
  {
    C.BegunMeaning(cluster, known, xs);
    var (epoch, r) := C.Begun(known, C.Asked(cluster, C.BeginOp, xs));
    var call := C.Call.Call(C.BeginOp, 0);
    if exists x | x in xs :: C.Final(cluster, call, x) {
      var n: nat :| C.FirstFinal(cluster, call, xs, n) && C.BeginReads(known, xs[n].response, epoch, r);
      assert BeginRaises(xs[n].response, pending, if r.Ok? then None else Some(Translate(r.failure, pending)),
                         if r.Ok? then Some(r.value) else None);
    }
  }

  /** The answers that abort a transaction. */
  ghost predicate ConflictOrSilence(cluster: string, op: C.Operation, xs: seq<C.Exchange>)
  {
    || Unanswered(cluster, op, xs)
    || exists n: nat :: C.FirstFinal(cluster, C.Call.Call(op, 0), xs, n) && xs[n].response.word == Some(C.Of(Conflict))
  }

  lemma AbortingAnswer(cluster: string, op: C.Operation, xs: seq<C.Exchange>)
    ensures var r := C.Asked(cluster, op, xs);
            (r.Err? && Aborts(Native(r.failure))) <==> ConflictOrSilence(cluster, op, xs)
  {
    var call, called := C.Call.Call(op, 0), C.Called(cluster, C.Call.Call(op, 0), xs);
    if called.Ok? {
      forall n: nat | C.FirstFinal(cluster, call, xs, n) ensures xs[n].response == called.value {
        C.CalledFirst(cluster, call, xs, n);
      }
      assert !Unanswered(cluster, op, xs);
    }
  }

  /** What a submission is to the caller of `commit`: a number or a revision out of range is
      noticed before anything is sent. */
  ghost predicate SubmissionTold(cluster: string, session: string, c: C.Retry, content: Content,
                                 xs: seq<C.Exchange>, error: Option<DbError>)
    requires c.epoch.Some?
  {
    if C.InRange(c.sequence, content.readVersion) then
      CommitTold(cluster, Write(Identity(session, c.epoch.value, c.sequence), content), xs, error)
    else error == Some(DataError)
  }

  lemma SubmissionMeaning(cluster: string, session: string, c: C.Retry, content: Content,
                          epochXs: seq<C.Exchange>, xs: seq<C.Exchange>)
    requires c.pending.None? && c.epoch.Some?
    ensures var (retry, r) := C.Submitted(cluster, session, c, content, epochXs, xs);
            SubmissionTold(cluster, session, c, content, xs,
                           if r.Ok? then None else Some(Translate(r.failure, retry.pending)))
  {
    if C.InRange(c.sequence, content.readVersion) {
      var waiting := C.Begin(session, c, content);
      var w, call := waiting.pending.value, C.Call.Call(C.WriteOp, c.sequence);
      var (retry, r) := C.Submitted(cluster, session, c, content, epochXs, xs);
      C.ResolvedMeaning(cluster, waiting, xs);
      if exists x | x in xs :: C.Final(cluster, call, x) {
        var n: nat :| C.FirstFinal(cluster, call, xs, n) && C.ResolutionMeans(waiting, w, xs[n].response, retry, r);
        assert CommitRaises(xs[n].response.word.value, w,
                            if r.Ok? then None else Some(Translate(r.failure, retry.pending)));
      }
    }
  }

  /** One successful preview: the staged statements it ran, what it asked, what came back. */
  datatype Preview = Preview(version: nat, staged: seq<Statement>, query: Option<Query>, response: C.Response)

  ghost predicate Passed(observed: set<Preview>, version: nat, staged: seq<Statement>)
  {
    exists p :: p in observed && p.version == version && p.staged == staged
  }

  /** Every non-empty prefix of the staged statements was previewed with success. */
  ghost predicate EveryPrefixPassed(observed: set<Preview>, version: nat, staged: seq<Statement>)
  {
    forall k | 1 <= k <= |staged| :: Passed(observed, version, staged[..k])
  }

  lemma PrefixesOfPrefix(observed: set<Preview>, version: nat, staged: seq<Statement>, n: nat)
    requires n <= |staged| && EveryPrefixPassed(observed, version, staged)
    ensures EveryPrefixPassed(observed, version, staged[..n])
  {
    forall k | 1 <= k <= n ensures Passed(observed, version, staged[..n][..k]) {
      assert staged[..n][..k] == staged[..k];
    }
  }

  lemma OneMorePrefix(observed: set<Preview>, version: nat, staged: seq<Statement>, s: Statement)
    requires EveryPrefixPassed(observed, version, staged) && Passed(observed, version, staged + [s])
    ensures EveryPrefixPassed(observed, version, staged + [s])
  {
    var more := staged + [s];
    forall k | 1 <= k <= |more| ensures Passed(observed, version, more[..k]) {
      if k == |more| {
        assert more[..k] == more;
      } else {
        assert more[..k] == staged[..k];
      }
    }
  }

  /** The fields of a connection. */
  datatype Tx = Tx(version: Option<nat>, statements: seq<Statement>, savepoints: seq<(string, nat)>,
                   failed: bool, autocommit: bool, closed: bool)

  /** What a transaction has seen backs what it has staged; without a read version it has
      neither. */
  ghost predicate Sound(t: Tx, observed: set<Preview>)
  {
    && (t.version.None? ==> t.statements == [] && t.savepoints == [] && observed == {})
    && (t.version.Some? ==>
          && EveryPrefixPassed(observed, t.version.value, t.statements)
          && forall p | p in observed :: p.version == t.version.value)
  }

  lemma StillSound(t: Tx, observed: set<Preview>, p: Preview)
    requires Sound(t, observed) && t.version == Some(p.version)
    ensures Sound(t, observed + {p})
  {
    forall k | 1 <= k <= |t.statements| ensures Passed(observed + {p}, p.version, t.statements[..k]) {
      assert Passed(observed, p.version, t.statements[..k]);
    }
  }

  function Cleared(t: Tx): Tx
  {
    t.(version := None, statements := [], savepoints := [], failed := false)
  }

  /** `_ready` */
  function Blocked(t: Tx, pending: Option<Write>, allowFailed: bool): Option<DbError>
  {
    if t.closed then Some(InterfaceError)
    else if pending.Some? then Some(OperationalError(pending))
    else if t.failed && !allowFailed then Some(OperationalError(None))
    else None
  }

  /** A closed connection, an unresolved commit, and an aborted transaction, in this order. */
  lemma BlockedMeaning(t: Tx, pending: Option<Write>, allowFailed: bool)
    ensures t.closed ==> Blocked(t, pending, allowFailed) == Some(InterfaceError)
    ensures !t.closed && pending.Some? ==> Blocked(t, pending, allowFailed) == Some(OperationalError(pending))
    ensures !t.closed && pending.None? && t.failed && !allowFailed ==>
              Blocked(t, pending, allowFailed) == Some(OperationalError(None))
    ensures !t.closed && pending.None? && (!t.failed || allowFailed) ==> Blocked(t, pending, allowFailed) == None
  {
  }

  // ---------------------------------------------------- savepoints as lists of statements

  /** Savepoints the obvious way: each one keeps the whole list it was taken at. */
  type Snapshots = seq<(string, seq<Statement>)>

  /** The marks stand for the snapshots. */
  ghost predicate Represents(t: Tx, snapshots: Snapshots)
  {
    && |snapshots| == |t.savepoints|
    && forall i | 0 <= i < |snapshots| ::
         && snapshots[i].0 == t.savepoints[i].0
         && t.savepoints[i].1 <= |t.statements|
         && snapshots[i].1 == t.statements[..t.savepoints[i].1]
  }

  ghost predicate MarksOrdered(t: Tx)
  {
    forall i, j | 0 <= i < j < |t.savepoints| :: t.savepoints[i].1 <= t.savepoints[j].1
  }

  /** The savepoint a name means: the last one taken under it. */
  ghost predicate Meant(savepoints: seq<(string, nat)>, name: string, i: nat)
  {
    && i < |savepoints| && savepoints[i].0 == name
    && forall j | i < j < |savepoints| :: savepoints[j].0 != name
  }

  function Wrap(r: C.Result<C.Response>): Prepared<C.Response>
  {
    match r
    case Ok(response) => Good(response)
    case Err(f) => Bad(Native(f))
  }

  class Connection {
    const dialect: Dialect
    const native: C.Connection
    var version: Option<nat>
    var statements: seq<Statement>
    var savepoints: seq<(string, nat)>
    var failed: bool
    var autocommit: bool
    var closed: bool
    ghost var observed: set<Preview>   // successful previews of the current transaction
    ghost var snapshots: Snapshots

    function State(): Tx
      reads this
    {
      Tx(version, statements, savepoints, failed, autocommit, closed)
    }

    ghost predicate Valid()
      reads this, native
    {
      && native.Usable() && !native.buffering && (!closed ==> !native.closed)
      && Sound(State(), observed)
      && (version.Some? ==> native.epoch.Some? && 1 <= version.value <= C.MAX_I64)
      && Represents(State(), snapshots) && MarksOrdered(State())
      && (forall p | p in observed :: p.staged == [] || dialect.compose(p.staged).Good?)
    }

    /** Between calls an autocommit connection has nothing open, unless it failed. */
    ghost predicate Rest()
      reads this, native
    {
      Valid() && (autocommit && !failed ==> version.None?)
    }

    constructor (dialect: Dialect, native: C.Connection, autocommit: bool)
      requires native.Usable() && !native.buffering && !native.closed
      ensures Rest() && this.dialect == dialect && this.native == native
      ensures State() == Tx(None, [], [], false, autocommit, false) && observed == {} && snapshots == []
    {
      this.dialect := dialect;
      this.native := native;
      this.autocommit := autocommit;
      version := None;
      statements := [];
      savepoints := [];
      failed := false;
      closed := false;
      observed := {};
      snapshots := [];
    }

    function Error(allowFailed: bool): Option<DbError>
      reads this, native
    {
      Blocked(State(), native.pending, allowFailed)
    }

    /** `_clear` */
    method Clear()
      requires Valid()
      modifies this
      ensures Valid() && State() == Cleared(old(State())) && observed == {} && snapshots == []
      ensures version == None && statements == [] && savepoints == [] && !failed
      ensures autocommit == old(autocommit) && closed == old(closed)
    {
      version := None;
      statements := [];
      savepoints := [];
      failed := false;
      observed := {};
      snapshots := [];
    }

    /** `_begin`: the read version is fixed once per transaction. */
    method Begin(xs: seq<C.Exchange>) returns (error: Option<DbError>)
      requires Valid()
      modifies this`version, this`failed, native`index, native`epoch
      ensures Valid() && native.State() == old(native.State()).(epoch := native.epoch)
      ensures old(native.epoch).Some? ==> native.epoch == old(native.epoch)
      ensures old(Error(false)).Some? ==>
                error == old(Error(false)) && State() == old(State()) && native.epoch == old(native.epoch)
      ensures old(Error(false)).None? && old(version).Some? ==> error == None && State() == old(State())
      ensures old(Error(false)).None? && old(version).None? ==> BeginTold(native.cluster, xs, None, error, version)
      ensures old(Error(false)).None? && old(version).None? ==>
                var begun := C.Begun(old(native.epoch), C.Asked(native.cluster, C.BeginOp, xs));
                && native.epoch == begun.0
                && match begun.1
                case Ok(v) => error == None && State() == old(State()).(version := Some(v))
                              && native.epoch.Some? && 1 <= v <= C.MAX_I64
                case Err(f) => error == Some(Translate(f, native.pending))
                               && State() == old(State()).(failed := true)
    {
      error := Error(false);
      if error.Some? || version.Some? {
        return;
      }
      BeginMeaning(native.cluster, native.epoch, xs, None);
      var begun := native.BeginOptimistic(xs);
      if begun.Err? {
        failed := true;
        return Some(Translate(begun.failure, native.pending));
      }
      version := Some(begun.value);
      error := None;
    }

    /** What a preview asks the service: the staged body, and a query on top of it. */
    function Composed(staged: seq<Statement>, query: Option<Statement>): Option<Raised>
    {
      if staged != [] && dialect.compose(staged).Bad? then Some(dialect.compose(staged).raised)
      else if query.Some? && dialect.bind(query.value).Bad? then Some(dialect.bind(query.value).raised)
      else None
    }

    function Bound(query: Option<Statement>): Option<Query>
    {
      if query.Some? && dialect.bind(query.value).Good? then Some(dialect.bind(query.value).value) else None
    }

    /** The first act of a preview, where no read version is in force. */
    function Opening(t: Tx, epoch: Option<nat>, beginXs: seq<C.Exchange>): C.Result<nat>
    {
      if t.version.Some? then C.Ok(t.version.value)
      else C.Begun(epoch, C.Asked(native.cluster, C.BeginOp, beginXs)).1
    }

    /** What a preview comes to: the body and the query are checked first, then the read
        version is fetched if need be, and only then is the service asked. */
    function PreviewResult(t: Tx, before: C.Retry, staged: seq<Statement>, query: Option<Statement>,
                           beginXs: seq<C.Exchange>, xs: seq<C.Exchange>): Prepared<C.Response>
    {
      if Composed(staged, query).Some? then Bad(Composed(staged, query).value)
      else if Opening(t, before.epoch, beginXs).Err? then
        Bad(Db(Translate(Opening(t, before.epoch, beginXs).failure, before.pending)))
      else Wrap(C.Asked(native.cluster, C.PreviewOp, xs))
    }

    /** `_preview`: checks the body and the query, begins if need be, and asks at the read
        version.  Only a success is remembered. */
    method Previewed(staged: seq<Statement>, query: Option<Statement>, beginXs: seq<C.Exchange>, xs: seq<C.Exchange>)
      returns (r: Prepared<C.Response>)
      requires Valid() && Error(false).None?
      modifies this`version, this`failed, this`observed, native`index, native`epoch
      ensures Valid() && native.State() == old(native.State()).(epoch := native.epoch)
      ensures statements == old(statements) && savepoints == old(savepoints)
      ensures old(version).Some? ==> version == old(version)
      ensures r == PreviewResult(old(State()), old(native.State()), staged, query, beginXs, xs)
      ensures Composed(staged, query).Some? ==> State() == old(State()) && observed == old(observed)
      ensures Composed(staged, query).None? && old(version).Some? ==>
                State() == old(State()) && native.epoch == old(native.epoch)
      ensures Composed(staged, query).None? && old(version).None? ==>
                var begun := C.Begun(old(native.epoch), C.Asked(native.cluster, C.BeginOp, beginXs));
                && native.epoch == begun.0
                && match begun.1
                case Ok(v) => State() == old(State()).(version := Some(v))
                case Err(_) => State() == old(State()).(failed := true)
      ensures r.Good? ==>
                && version.Some? && Composed(staged, query).None?
                && observed == old(observed) + {Preview(version.value, staged, Bound(query), r.value)}
      ensures r.Bad? ==> observed == old(observed)
    {
      ghost var result := PreviewResult(State(), native.State(), staged, query, beginXs, xs);
      if Composed(staged, query).Some? {
        return Bad(Composed(staged, query).value);
      }
      var error := Begin(beginXs);
      if error.Some? {
        assert result == Bad(Db(error.value));
        return Bad(Db(error.value));
      }
      var answer := native.Ask(C.PreviewOp, xs);
      r := Wrap(answer);
      assert r == result;
      if answer.Ok? {
        StillSound(State(), observed, Preview(version.value, staged, Bound(query), answer.value));
        observed := observed + {Preview(version.value, staged, Bound(query), answer.value)};
      }
    }

    /** `_statements = candidate`, once the candidate has passed. */
    method Append(operation: Statement)
      requires Valid() && version.Some? && Passed(observed, version.value, statements + [operation])
      modifies this`statements
      ensures Valid() && statements == old(statements) + [operation]
    {
      OneMorePrefix(observed, version.value, statements, operation);
      assert forall i | 0 <= i < |savepoints| ::
          (statements + [operation])[..savepoints[i].1] == statements[..savepoints[i].1];
      statements := statements + [operation];
    }

    /** `commit`: the staged body goes out once, under the read version it was previewed at.
        A connection without staged statements has nothing to send. */
    method Commit(epochXs: seq<C.Exchange>, xs: seq<C.Exchange>) returns (error: Option<DbError>)
      requires Valid()
      modifies this, native`index, native`pending, native`sequence, native`epoch
      ensures Valid() && (old(Rest()) || old(Error(false)).None? ==> Rest())
      ensures old(Error(false)).Some? ==>
                error == old(Error(false)) && State() == old(State()) && native.State() == old(native.State())
                && observed == old(observed)
      ensures old(Error(false)).None? && old(statements) == [] ==>
                error == None && State() == Cleared(old(State())) && native.State() == old(native.State())
      ensures old(Error(false)).None? && old(statements) != [] ==>
                && old(version).Some? && old(native.epoch).Some? && dialect.compose(old(statements)).Good?
                && SubmissionTold(native.cluster, native.session, old(native.State()),
                        Content(old(version).value, dialect.compose(old(statements)).value), xs, error)
      ensures old(Error(false)).None? && old(statements) != [] ==>
                && dialect.compose(old(statements)).Good?
                && var content := Content(old(version).value, dialect.compose(old(statements)).value);
                var (retry, answer) :=
                  C.Submitted(native.cluster, native.session, old(native.State()), content, epochXs, xs);
                && native.State() == retry
                && match answer
                   case Ok(_) => error == None && State() == Cleared(old(State()))
                   case Err(f) => error == Some(Translate(f, retry.pending))
                                  && State() == old(State()).(failed := true) && observed == old(observed)
    {
      error := Error(false);
      if error.Some? {
        return;
      }
      if statements != [] {
        StagedComposes();
        var content := Content(version.value, dialect.compose(statements).value);
        SubmissionMeaning(native.cluster, native.session, native.State(), content, epochXs, xs);
        var answer := native.ExecutePrepared(content, epochXs, xs);
        if answer.Err? {
          failed := true;
          return Some(Translate(answer.failure, native.pending));
        }
      }
      Clear();
      error := None;
    }

    /** The whole staged list is one of its prefixes, so it was composed when it passed. */
    lemma StagedComposes()
      requires Valid() && statements != []
      ensures version.Some? && dialect.compose(statements).Good?
    {
      assert statements[..|statements|] == statements;
      assert Passed(observed, version.value, statements[..|statements|]);
    }

    /** `rollback` */
    method Rollback() returns (error: Option<DbError>)
      requires Valid()
      modifies this
      ensures Valid() && (error.None? ==> Rest())
      ensures error == old(Error(true))
      ensures error.Some? ==> State() == old(State()) && observed == old(observed) && snapshots == old(snapshots)
      ensures error.None? ==> State() == Cleared(old(State()))
    {
      error := Error(true);
      if error.None? {
        Clear();
      }
    }

    /** `close` */
    method Close()
      requires Valid()
      modifies this, native`closed
      ensures Rest() && State() == Cleared(old(State())).(closed := true) && native.closed
    {
      Clear();
      native.closed := true;
      closed := true;
    }

    /** The `autocommit` setter: not while a read version is held. */
    method SetAutocommit(value: bool) returns (error: Option<DbError>)
      requires Rest()
      modifies this`autocommit
      ensures Rest()
      ensures error == if old(Error(false)).Some? then old(Error(false))
                       else if value != old(autocommit) && version.Some? then Some(ProgrammingError)
                       else None
      ensures State() == if error.None? then old(State()).(autocommit := value) else old(State())
    {
      error := Error(false);
      if error.Some? {
        return;
      }
      if value != autocommit && version.Some? {
        return Some(ProgrammingError);
      }
      autocommit := value;
    }

    /** `_autocommit`, set without a check. */
    method Switch(value: bool)
      requires Valid()
      modifies this`autocommit
      ensures Valid() && State() == old(State()).(autocommit := value)
    {
      autocommit := value;
    }

    /** `savepoint` */
    method Savepoint(name: string, xs: seq<C.Exchange>) returns (error: Option<DbError>)
      requires Rest()
      modifies this`version, this`failed, this`savepoints, this`snapshots, native`index, native`epoch
      ensures Rest()
      ensures statements == old(statements) && observed == old(observed) && autocommit == old(autocommit)
      ensures autocommit || old(Error(false)).Some? ==>
                && error == (if autocommit then Some(NotSupportedError) else old(Error(false)))
                && State() == old(State()) && snapshots == old(snapshots) && native.epoch == old(native.epoch)
      ensures old(version).Some? ==> version == old(version)
      ensures error.Some? ==> savepoints == old(savepoints) && snapshots == old(snapshots)
      ensures error.None? ==>
                && version.Some? && failed == old(failed) && old(Error(false)).None?
                && savepoints == old(savepoints) + [(name, |statements|)]
                && snapshots == old(snapshots) + [(name, statements)]
    {
      if autocommit {
        return Some(NotSupportedError);
      }
      error := Begin(xs);
      if error.Some? {
        return;
      }
      MarkedHere(State(), snapshots, name);
      savepoints := savepoints + [(name, |statements|)];
      snapshots := snapshots + [(name, statements)];
    }

    lemma MarkedHere(t: Tx, shots: Snapshots, name: string)
      requires Represents(t, shots) && MarksOrdered(t)
      ensures var u := t.(savepoints := t.savepoints + [(name, |t.statements|)]);
              Represents(u, shots + [(name, t.statements)]) && MarksOrdered(u)
    {
      assert t.statements[..|t.statements|] == t.statements;
      forall i | 0 <= i < |t.savepoints| ensures t.savepoints[i].1 <= |t.statements| {
        assert shots[i].0 == t.savepoints[i].0;
      }
    }

    /** `_savepoint_index`: from the last savepoint to the first. */
    method SavepointIndex(name: string) returns (r: Prepared<nat>)
      requires Valid()
      ensures Error(false).Some? ==> r == Bad(Db(Error(false).value))
      ensures Error(false).None? && r.Bad? ==>
                r == Bad(Db(ProgrammingError)) && forall i | 0 <= i < |savepoints| :: savepoints[i].0 != name
      ensures r.Good? ==> Error(false).None? && Meant(savepoints, name, r.value)
    {
      var error := Error(false);
      if error.Some? {
        return Bad(Db(error.value));
      }
      var i := |savepoints|;
      while i > 0
        invariant 0 <= i <= |savepoints|
        invariant forall j | i <= j < |savepoints| :: savepoints[j].0 != name
      {
        i := i - 1;
        if savepoints[i].0 == name {
          return Good(i);
        }
      }
      r := Bad(Db(ProgrammingError));
    }

    /** `rollback_savepoint`: back to the very list the savepoint was taken at; it stays, the
        later ones go. */
    method RollbackSavepoint(name: string) returns (r: Prepared<nat>)
      requires Rest()
      modifies this`statements, this`savepoints, this`snapshots
      ensures Rest() && observed == old(observed)
      ensures r.Bad? ==> State() == old(State()) && snapshots == old(snapshots)
      ensures r.Bad? ==> if old(Error(false)).Some? then r == Bad(Db(old(Error(false)).value))
                         else r == Bad(Db(ProgrammingError)) && forall p | p in savepoints :: p.0 != name
      ensures r.Good? ==>
                && old(Error(false)).None? && Meant(old(savepoints), name, r.value)
                && statements == old(snapshots)[r.value].1
                && snapshots == old(snapshots)[..r.value + 1]
                && State() == old(State()).(statements := statements, savepoints := old(savepoints)[..r.value + 1])
    {
      r := SavepointIndex(name);
      if r.Bad? {
        return;
      }
      var i := r.value;
      if version.Some? { PrefixesOfPrefix(observed, version.value, statements, savepoints[i].1); }
      statements := statements[..savepoints[i].1];
      savepoints := savepoints[..i + 1];
      snapshots := snapshots[..i + 1];
      RestoredMarks(old(State()), old(snapshots), i);
    }

    lemma RestoredMarks(t: Tx, shots: Snapshots, i: nat)
      requires Represents(t, shots) && MarksOrdered(t) && i < |t.savepoints|
      ensures var u := t.(statements := t.statements[..t.savepoints[i].1], savepoints := t.savepoints[..i + 1]);
              Represents(u, shots[..i + 1]) && MarksOrdered(u)
    {
      var mark := t.savepoints[i].1;
      forall j | 0 <= j <= i ensures t.savepoints[j].1 <= mark &&
              t.statements[..mark][..t.savepoints[j].1] == t.statements[..t.savepoints[j].1] {
        assert j < i ==> t.savepoints[j].1 <= t.savepoints[i].1;
      }
    }

    /** `release_savepoint`: the savepoint and the later ones go, the statements stay. */
    method ReleaseSavepoint(name: string) returns (r: Prepared<nat>)
      requires Rest()
      modifies this`savepoints, this`snapshots
      ensures Rest() && observed == old(observed)
      ensures r.Bad? ==> State() == old(State()) && snapshots == old(snapshots)
      ensures r.Bad? ==> if old(Error(false)).Some? then r == Bad(Db(old(Error(false)).value))
                         else r == Bad(Db(ProgrammingError)) && forall p | p in savepoints :: p.0 != name
      ensures r.Good? ==>
                && old(Error(false)).None? && Meant(old(savepoints), name, r.value)
                && snapshots == old(snapshots)[..r.value]
                && State() == old(State()).(savepoints := old(savepoints)[..r.value])
    {
      r := SavepointIndex(name);
      if r.Bad? {
        return;
      }
      savepoints := savepoints[..r.value];
      snapshots := snapshots[..r.value];
    }
  }

  /** What the network does during one `execute`. */
  datatype Attempts = Attempts(begin: seq<C.Exchange>, ask: seq<C.Exchange>,
                               epoch: seq<C.Exchange>, commit: seq<C.Exchange>)

  function TotalChanges(responses: seq<C.Response>): (r: int)
    ensures responses == [] ==> r == 0
  {
    if responses == [] then 0 else TotalChanges(responses[..|responses| - 1]) + responses[|responses| - 1].changes
  }

  class Cursor {
    const connection: Connection
    var rowcount: int
    var lastrowid: Option<int>
    var closed: bool

    constructor (connection: Connection)
      ensures this.connection == connection && rowcount == -1 && lastrowid == None && !closed
    {
      this.connection := connection;
      rowcount := -1;
      lastrowid := None;
      closed := false;
    }

    function Error(): Option<DbError>
      reads this, connection, connection.native
    {
      if closed then Some(InterfaceError) else connection.Error(false)
    }

    /** The handlers of `execute`: an autocommit connection starts over, a transaction is
        aborted by a changed revision or a lost connection and by nothing else. */
    method Handle(raised: Raised) returns (error: DbError)
      requires connection.Valid()
      modifies connection
      ensures connection.Valid()
      ensures error == Raise(raised, connection.native.pending)
      ensures connection.autocommit == old(connection.autocommit) && connection.closed == old(connection.closed)
      ensures old(connection.autocommit) && connection.native.pending.None? ==>
                connection.State() == Cleared(old(connection.State()))
      ensures !(old(connection.autocommit) && connection.native.pending.None?) ==>
                && connection.observed == old(connection.observed)
                && connection.snapshots == old(connection.snapshots)
                && connection.State() ==
                     old(connection.State()).(failed := old(connection.failed) || Aborts(raised))
    {
      error := Raise(raised, connection.native.pending);
      if connection.autocommit && connection.native.pending.None? {
        connection.Clear();
      } else if Aborts(raised) {
        connection.failed := true;
      }
    }

    /** What asking a query, or previewing a write, comes to. */
    function Reply(t: Tx, native: C.Retry, operation: Statement, write: bool, net: Attempts): Prepared<C.Response>
    {
      var c := connection;
      if write then c.PreviewResult(t, native, t.statements + [operation], None, net.begin, net.ask)
      else if !t.autocommit then c.PreviewResult(t, native, t.statements, Some(operation), net.begin, net.ask)
      else match c.dialect.bind(operation)
        case Bad(raised) => Bad(raised)
        case Good(_) => Wrap(C.Asked(c.native.cluster, C.QueryOp, net.ask))
    }

    /** A failure aborts the transaction if the read version could not be fetched, or by its
        kind. */
    predicate Aborting(t: Tx, native: C.Retry, operation: Statement, write: bool, net: Attempts)
    {
      var r, c := Reply(t, native, operation, write, net), connection;
      var composed := if write then c.Composed(t.statements + [operation], None)
                      else c.Composed(t.statements, Some(operation));
      r.Bad? && (Aborts(r.raised) || (composed.None? && c.Opening(t, native.epoch, net.begin).Err?))
    }

    /** What the caller is told. */
    predicate Told(r: Prepared<C.Response>, pending: Option<Write>, error: Option<DbError>, answer: Option<C.Response>)
    {
      match r
      case Good(response) => error == None && answer == Some(response)
      case Bad(raised) => error == Some(Raise(raised, pending)) && answer == None
    }

    /** A text that cannot be prepared is the caller's error. */
    ghost predicate TextRaises(raised: Raised, error: Option<DbError>)
    {
      match raised
      case Db(e) => error == Some(e)
      case Native(f) => f == C.ValueError ==> error == Some(DataError)
    }

    /** The transaction has a read version, or its begin was answered with one. */
    ghost predicate Begins(t: Tx, begin: seq<C.Exchange>)
    {
      t.version.Some? || exists v :: BeginTold(connection.native.cluster, begin, None, None, Some(v))
    }

    /** The text of a statement, with what is staged before it, can be sent. */
    predicate Sends(t: Tx, operation: Statement, write: bool)
    {
      if write then connection.dialect.compose(t.statements + [operation]).Good?
      else
        && connection.dialect.bind(operation).Good?
        && (t.autocommit || t.statements == [] || connection.dialect.compose(t.statements).Good?)
    }

    /** What a statement comes to, from the answers: the text is checked first, then the read
        version is fetched if the transaction has none, and then the service is asked; a query
        in autocommit is a read of its own. */
    ghost predicate StatementTold(t: Tx, operation: Statement, write: bool, net: Attempts, error: Option<DbError>,
                                  answer: Option<C.Response>)
    {
      var cluster := connection.native.cluster;
      if !Sends(t, operation, write) then error.Some? && answer == None
      else if !write && t.autocommit then CallTold(cluster, C.QueryOp, net.ask, None, error, answer)
      else if Begins(t, net.begin) then CallTold(cluster, C.PreviewOp, net.ask, None, error, answer)
      else error.Some? && answer == None && BeginTold(cluster, net.begin, None, error, None)
    }

    lemma StatementMeaning(t: Tx, native: C.Retry, operation: Statement, write: bool, net: Attempts,
                           error: Option<DbError>, answer: Option<C.Response>)
      requires native.pending.None? && Told(Reply(t, native, operation, write, net), None, error, answer)
      ensures StatementTold(t, operation, write, net, error, answer)
      ensures !write && (t.autocommit || t.statements == []) && connection.dialect.bind(operation).Bad? ==>
                TextRaises(connection.dialect.bind(operation).raised, error)
      ensures write && connection.dialect.compose(t.statements + [operation]).Bad? ==>
                TextRaises(connection.dialect.compose(t.statements + [operation]).raised, error)
    {
      var cluster := connection.native.cluster;
      if Sends(t, operation, write) {
        CallMeaning(cluster, if !write && t.autocommit then C.QueryOp else C.PreviewOp, net.ask, None);
        if (write || !t.autocommit) && t.version.None? { BeginsMeaning(t, native, net.begin); }
      }
    }

    lemma BeginsMeaning(t: Tx, native: C.Retry, begin: seq<C.Exchange>)
      requires t.version.None?
      ensures var r := C.Begun(native.epoch, C.Asked(connection.native.cluster, C.BeginOp, begin)).1;
              && (Begins(t, begin) <==> r.Ok?)
              && (r.Err? ==>
                    BeginTold(connection.native.cluster, begin, None, Some(Translate(r.failure, None)), None))
    {
      var r := C.Begun(native.epoch, C.Asked(connection.native.cluster, C.BeginOp, begin)).1;
      BeginMeaning(connection.native.cluster, native.epoch, begin, None);
      forall v | BeginTold(connection.native.cluster, begin, None, None, Some(v)) ensures r.Ok? {
        var call := C.Call.Call(C.BeginOp, 0);
        var n: nat :| C.FirstFinal(connection.native.cluster, call, begin, n) &&
                      BeginRaises(begin[n].response, None, None, Some(v));
      }
    }

    /** A transaction is aborted by a begin that failed, by a changed revision, and by a service
        that does not answer; other errors leave it as it is. */
    lemma AbortMeaning(t: Tx, native: C.Retry, operation: Statement, write: bool, net: Attempts)
      requires native.pending.None? && !t.autocommit
      requires !Refuses(t, operation, write)
      ensures Aborting(t, native, operation, write, net) <==>
              && Sends(t, operation, write)
              && (!Begins(t, net.begin) || ConflictOrSilence(connection.native.cluster, C.PreviewOp, net.ask))
    {
      if Sends(t, operation, write) {
        if t.version.None? { BeginsMeaning(t, native, net.begin); }
        AbortingAnswer(connection.native.cluster, C.PreviewOp, net.ask);
      }
    }

    /** Preparing the text fails in one of the ways that abort a transaction. */
    predicate Refuses(t: Tx, operation: Statement, write: bool)
    {
      var d := connection.dialect;
      || (write && d.compose(t.statements + [operation]).Bad? && Aborts(d.compose(t.statements + [operation]).raised))
      || (!write && d.compose(t.statements).Bad? && Aborts(d.compose(t.statements).raised))
      || (!write && d.bind(operation).Bad? && Aborts(d.bind(operation).raised))
    }

    /** A query: on the staged statements in a transaction, on its own in autocommit. */
    method Ask(operation: Statement, net: Attempts) returns (error: Option<DbError>, answer: Option<C.Response>)
      requires connection.Rest() && Error().None?
      modifies connection, connection.native`index, connection.native`epoch
      ensures connection.Rest() && connection.native.pending == None
      ensures Told(Reply(old(connection.State()), old(connection.native.State()), operation, false, net), None,
              error, answer)
      ensures !old(connection.autocommit) ==>
                connection.failed == Aborting(old(connection.State()), old(connection.native.State()), operation,
                        false, net)
      ensures connection.statements == old(connection.statements)
      ensures connection.autocommit == old(connection.autocommit) && connection.closed == old(connection.closed)
      ensures old(connection.autocommit) ==>
                && connection.version.None? && !connection.failed
                && connection.native.epoch == old(connection.native.epoch)
      ensures !old(connection.autocommit) ==>
                connection.savepoints == old(connection.savepoints) && connection.snapshots == old(connection.snapshots)
      ensures !old(connection.autocommit) && answer.Some? ==>
                && connection.version.Some? && !connection.failed
                && connection.observed == old(connection.observed) +
                     {Preview(connection.version.value, connection.statements, connection.Bound(Some(operation)),
                             answer.value)}
      ensures !old(connection.autocommit) && old(connection.version).Some? ==>
              connection.version == old(connection.version)
      ensures !old(connection.autocommit) && answer.None? ==> connection.observed == old(connection.observed)
      ensures !old(connection.autocommit) && answer.Some? ==>
                Opened(old(connection.version), old(connection.native.State()), net.begin)
    {
      answer := None;
      if connection.autocommit {
        var bound := connection.dialect.bind(operation);
        if bound.Bad? {
          var e := Handle(bound.raised);
          return Some(e), None;
        }
        var reply := connection.native.Ask(C.QueryOp, net.ask);
        if reply.Err? {
          var e := Handle(Native(reply.failure));
          return Some(e), None;
        }
        return None, Some(reply.value);
      }
      var r := connection.Previewed(connection.statements, Some(operation), net.begin, net.ask);
      if r.Bad? {
        var e := Handle(r.raised);
        return Some(e), None;
      }
      return None, Some(r.value);
    }

    /** A write: staged only after the whole list with it was previewed. */
    method Stage(operation: Statement, net: Attempts) returns (error: Option<DbError>, answer: Option<C.Response>)
      requires connection.Rest() && Error().None?
      modifies this`rowcount, this`lastrowid, connection, connection.native`index, connection.native`epoch
      ensures connection.Valid() && connection.native.pending == None
      ensures Told(Reply(old(connection.State()), old(connection.native.State()), operation, true, net), None,
              error, answer)
      ensures !old(connection.autocommit) ==>
                connection.failed == Aborting(old(connection.State()), old(connection.native.State()), operation,
                        true, net)
      ensures connection.autocommit == old(connection.autocommit) && connection.closed == old(connection.closed)
      ensures answer.Some? ==>
                && connection.version.Some? && !connection.failed
                && connection.statements == old(connection.statements) + [operation]
                && connection.savepoints == old(connection.savepoints)
                && connection.observed == old(connection.observed) +
                     {Preview(connection.version.value, connection.statements, None, answer.value)}
                && rowcount == answer.value.changes && lastrowid == Some(answer.value.lastrowid)
      ensures error.Some? ==>
                && connection.Rest() && rowcount == old(rowcount) && lastrowid == old(lastrowid)
                && connection.statements == old(connection.statements)
      ensures !old(connection.autocommit) && old(connection.version).Some? ==>
              connection.version == old(connection.version)
      ensures !old(connection.autocommit) ==> connection.snapshots == old(connection.snapshots)
      ensures error.Some? && !old(connection.autocommit) ==>
                connection.savepoints == old(connection.savepoints) && connection.observed == old(connection.observed)
      ensures error.Some? && old(connection.autocommit) ==> connection.State() == Cleared(old(connection.State()))
      ensures answer.Some? ==> Opened(old(connection.version), old(connection.native.State()), net.begin)
    {
      answer := None;
      var candidate := connection.statements + [operation];
      var r := connection.Previewed(candidate, None, net.begin, net.ask);
      if r.Bad? {
        var e := Handle(r.raised);
        return Some(e), None;
      }
      connection.Append(operation);
      rowcount, lastrowid := r.value.changes, Some(r.value.lastrowid);
      return None, Some(r.value);
    }

    /** What autocommitted statements come to for the native connection: a revision is
        fetched, then they alone are submitted under it. */
    function AutoCommit(native: C.Retry, staged: seq<Statement>, begin: seq<C.Exchange>, net: Attempts)
      : (C.Retry, C.Result<C.Response>)
      requires connection.dialect.compose(staged).Good?
    {
      var cluster, session := connection.native.cluster, connection.native.session;
      var begun := C.Begun(native.epoch, C.Asked(cluster, C.BeginOp, begin));
      if begun.1.Err? then (native, C.Err(begun.1.failure))
      else C.Submitted(cluster, session, native.(epoch := begun.0),
                       Content(begun.1.value, connection.dialect.compose(staged).value), net.epoch, net.commit)
    }

    lemma AutoCommitIs(before: Tx, native: C.Retry, staged: seq<Statement>, begin: seq<C.Exchange>, net: Attempts,
                       version: nat, now: C.Retry)
      requires connection.dialect.compose(staged).Good? && before.version.None?
      requires now == native.(epoch := now.epoch)
      requires (now.epoch, C.Ok(version)) == C.Begun(native.epoch, C.Asked(connection.native.cluster, C.BeginOp, begin))
      ensures AutoCommit(native, staged, begin, net) ==
              C.Submitted(connection.native.cluster, connection.native.session, now,
                          Content(version, connection.dialect.compose(staged).value), net.epoch, net.commit)
    {
    }

    /** The read version is the one in force, or was fetched as the transaction's first act. */
    ghost predicate Opened(before: Option<nat>, native: C.Retry, begin: seq<C.Exchange>)
      reads connection, connection.native
    {
      && connection.version.Some?
      && connection.native.State() == native.(epoch := connection.native.epoch)
      && if before.Some? then connection.version == before && connection.native.State() == native
         else (connection.native.epoch, C.Ok(connection.version.value)) ==
                C.Begun(native.epoch, C.Asked(connection.native.cluster, C.BeginOp, begin))
    }

    /** The autocommit branch for a write: staged, then committed at once.  What is left open
        is a commit whose fate is not known. */
    method StageAndCommit(operation: Statement, net: Attempts)
      returns (error: Option<DbError>, answer: Option<C.Response>)
      requires connection.Rest() && Error().None? && connection.autocommit
      modifies this`rowcount, this`lastrowid, connection
      modifies connection.native`index, connection.native`epoch, connection.native`pending, connection.native`sequence
      ensures connection.Rest()
      ensures Told(Committed(old(connection.State()), old(connection.native.State()), operation, net),
                   connection.native.pending, error, answer)
      ensures connection.autocommit && connection.closed == old(connection.closed)
      ensures answer.Some? ==> rowcount == answer.value.changes && lastrowid == Some(answer.value.lastrowid)
      ensures AutoCommitted(old(connection.State()), old(connection.native.State()), [operation], net.begin, net,
              Reply(old(connection.State()), old(connection.native.State()), operation, true, net).Good?, answer.Some?)
    {
      error, answer := Stage(operation, net);
      if error.Some? {
        return;
      }
      assert connection.statements == [operation];
      error := connection.Commit(net.epoch, net.commit);
      if error.Some? {
        answer := None;
        if connection.native.pending.None? {
          connection.Clear();
        }
      }
    }

    /** An autocommitted write reports its preview, unless its commit failed. */
    function Committed(t: Tx, native: C.Retry, operation: Statement, net: Attempts): Prepared<C.Response>
    {
      var r := Reply(t, native, operation, true, net);
      if r.Bad? || connection.dialect.compose([operation]).Bad? then r
      else match AutoCommit(native, [operation], net.begin, net).1
        case Ok(_) => r
        case Err(f) => Bad(Native(f))
    }

    /** An autocommitted write, from the answers: its preview comes first, and once that is good
        the answer to the commit decides. */
    ghost predicate AloneTold(native: C.Retry, operation: Statement, net: Attempts, error: Option<DbError>,
                              answer: Option<C.Response>)
      requires connection.dialect.compose([operation]).Good?
    {
      var cluster, session := connection.native.cluster, connection.native.session;
      exists epoch: nat, version: nat, shown: C.Response ::
        && C.Begun(native.epoch, C.Asked(cluster, C.BeginOp, net.begin)) == (Some(epoch), C.Ok(version))
        && CallTold(cluster, C.PreviewOp, net.ask, None, None, Some(shown))
        && SubmissionTold(cluster, session, native.(epoch := Some(epoch)),
                          Content(version, connection.dialect.compose([operation]).value), net.commit, error)
        && answer == if error.None? then Some(shown) else None
    }

    lemma AloneMeaning(t: Tx, native: C.Retry, operation: Statement, net: Attempts, pending: Option<Write>,
                       error: Option<DbError>, answer: Option<C.Response>)
      requires native.pending.None? && t.statements == [] && t.version.None?
      requires Told(Committed(t, native, operation, net), pending, error, answer)
      requires var good := Reply(t, native, operation, true, net).Good?;
               pending == if good && connection.dialect.compose([operation]).Good?
                          then AutoCommit(native, [operation], net.begin, net).0.pending else None
      ensures if Reply(t, native, operation, true, net).Good? then
                connection.dialect.compose([operation]).Good? && AloneTold(native, operation, net, error, answer)
              else StatementTold(t, operation, true, net, error, answer)
    {
      var reply := Reply(t, native, operation, true, net);
      assert t.statements + [operation] == [operation];
      if reply.Bad? {
        StatementMeaning(t, native, operation, true, net, error, answer);
      } else {
        var cluster := connection.native.cluster;
        var (epoch, version) := C.Begun(native.epoch, C.Asked(cluster, C.BeginOp, net.begin));
        var body := connection.dialect.compose([operation]).value;
        CallMeaning(cluster, C.PreviewOp, net.ask, None);
        SubmissionMeaning(cluster, connection.native.session, native.(epoch := epoch), Content(version.value, body),
                          net.epoch, net.commit);
        assert (epoch, version) == (Some(epoch.value), C.Ok(version.value));
        assert CallTold(cluster, C.PreviewOp, net.ask, None, None, Some(reply.value));
      }
    }

    /** What autocommitted statements do: unless their fate is not known the connection is at
        rest again, and success is reported exactly when the commit was answered so.  A commit
        that was not `reached` leaves no trace but perhaps a known epoch. */
    ghost predicate AutoCommitted(before: Tx, native: C.Retry, staged: seq<Statement>, begin: seq<C.Exchange>,
                                  net: Attempts, reached: bool, succeeded: bool)
      reads connection, connection.native
    {
      && (connection.native.pending.None? ==> connection.State() == Cleared(before))
      && (connection.native.pending.Some? ==> !succeeded && connection.failed && connection.version.Some?)
      && if reached then
           && connection.dialect.compose(staged).Good?
           && connection.native.State() == AutoCommit(native, staged, begin, net).0
           && (succeeded <==> AutoCommit(native, staged, begin, net).1.Ok?)
         else
           && !succeeded && connection.native.pending.None?
           && connection.native.State() == native.(epoch := connection.native.epoch)
    }

    /** `execute` */
    method Execute(operation: Statement, net: Attempts) returns (error: Option<DbError>, answer: Option<C.Response>)
      requires connection.Rest()
      modifies this`rowcount, this`lastrowid, connection
      modifies connection.native`index, connection.native`epoch, connection.native`pending, connection.native`sequence
      ensures connection.Rest() && (error.None? <==> answer.Some?)
      ensures connection.autocommit == old(connection.autocommit) && connection.closed == old(connection.closed)
      ensures old(Error()).Some? ==>
                && error == old(Error()) && connection.State() == old(connection.State())
                && connection.native.State() == old(connection.native.State())
                && connection.observed == old(connection.observed)
                && rowcount == old(rowcount) && lastrowid == old(lastrowid)
      ensures old(closed) ==> error == Some(InterfaceError)
      ensures !old(closed) ==> old(Error()) == old(connection.Error(false))
      ensures old(Error()).None? && connection.dialect.kind(operation.text).Unclassified? ==>
                && error == Some(connection.dialect.kind(operation.text).error)
                && connection.State() == old(connection.State())
                && connection.native.State() == old(connection.native.State())
      ensures old(Error()).None? && !connection.dialect.kind(operation.text).Unclassified? ==>
                var write := connection.dialect.kind(operation.text) == WriteKind;
                && Told(if write && old(connection.autocommit)
                        then Committed(old(connection.State()), old(connection.native.State()), operation, net)
                        else Reply(old(connection.State()), old(connection.native.State()), operation, write, net),
                        connection.native.pending, error, answer)
                && (!old(connection.autocommit) ==>
                      connection.failed == Aborting(old(connection.State()), old(connection.native.State()),
                              operation, write, net))
                && (!write || !old(connection.autocommit) ==>
                      StatementTold(old(connection.State()), operation, write, net, error, answer))
      ensures !old(connection.autocommit) ==>
                && Staged(old(connection.State()), old(connection.observed), operation, answer)
                && connection.native.State() == old(connection.native.State()).(epoch := connection.native.epoch)
                && connection.snapshots == old(connection.snapshots)
                && (answer.Some? ==> Opened(old(connection.version), old(connection.native.State()), net.begin))
      ensures answer.Some? && connection.dialect.kind(operation.text) == WriteKind ==>
                rowcount == answer.value.changes && lastrowid == Some(answer.value.lastrowid)
      ensures old(connection.autocommit) && old(Error()).None? &&
              connection.dialect.kind(operation.text) == WriteKind ==>
                AutoCommitted(old(connection.State()), old(connection.native.State()), [operation], net.begin, net,
                        Reply(old(connection.State()), old(connection.native.State()), operation, true, net).Good?,
                        answer.Some?)
      ensures old(connection.autocommit) && old(Error()).None? &&
              connection.dialect.kind(operation.text) != WriteKind ==>
                && connection.State() == Cleared(old(connection.State()))
                && connection.native.State() == old(connection.native.State())
    {
      answer := None;
      error := Error();
      if error.Some? {
        return;
      }
      lastrowid, rowcount := None, -1;
      var kind := connection.dialect.kind(operation.text);
      if kind.Unclassified? {
        return Some(kind.error), None;
      }
      ghost var t, native := connection.State(), connection.native.State();
      if kind == QueryKind {
        error, answer := Ask(operation, net);
        StatementMeaning(t, native, operation, false, net, error, answer);
      } else if connection.autocommit {
        error, answer := StageAndCommit(operation, net);
      } else {
        error, answer := Stage(operation, net);
        StatementMeaning(t, native, operation, true, net, error, answer);
      }
    }

    /** What `execute` does to a transaction: a query and a failure stage nothing, a write is
        staged behind the others, and the savepoints never move. */
    ghost predicate Staged(before: Tx, observed: set<Preview>, operation: Statement, answer: Option<C.Response>)
      reads connection
    {
      && connection.savepoints == before.savepoints
      && (before.version.Some? ==> connection.version == before.version)
      && (before.failed ==> answer.None?)
      && if answer.None? then connection.statements == before.statements && connection.observed == observed
         else
           && connection.version.Some? && !connection.failed
           && if connection.dialect.kind(operation.text) == QueryKind then
                && connection.statements == before.statements
                && connection.observed == observed +
                     {Preview(connection.version.value, before.statements, connection.Bound(Some(operation)),
                             answer.value)}
              else
                && connection.statements == before.statements + [operation]
                && connection.observed == observed +
                     {Preview(connection.version.value, connection.statements, None, answer.value)}
    }

    /** The statements of an `executemany`: one per parameter row. */
    function Batch(operation: Text, rows: seq<Params>): (r: seq<Statement>)
      ensures |r| == |rows|
    {
      seq(|rows|, i requires 0 <= i < |rows| => Statement(operation, rows[i]))
    }

    lemma BatchMore(operation: Text, rows: seq<Params>, before: seq<Statement>, i: nat)
      requires i < |rows|
      ensures before + Batch(operation, rows[..i]) + [Statement(operation, rows[i])] == before + Batch(operation,
              rows[..i + 1])
    {
    }

    lemma BatchAll(operation: Text, rows: seq<Params>)
      ensures Batch(operation, rows[..|rows|]) == Batch(operation, rows)
    {
      assert rows[..|rows|] == rows;
    }

    /** What the rows answered so far were previewed with: each on top of everything staged
        before it. */
    ghost function Shown(version: Option<nat>, before: seq<Statement>, operation: Text, rows: seq<Params>,
                         answers: seq<C.Response>): set<Preview>
      requires |answers| <= |rows|
    {
      if answers == [] || version.None? then {}
      else
        var n := |answers|;
        Shown(version, before, operation, rows, answers[..n - 1]) +
        {Preview(version.value, before + Batch(operation, rows[..n]), None, answers[n - 1])}
    }

    lemma OneMoreShown(observed: set<Preview>, version: Option<nat>, later: Option<nat>, before: seq<Statement>,
                       operation: Text, rows: seq<Params>, answers: seq<C.Response>, answer: C.Response)
      requires |answers| < |rows| && later.Some? && (answers != [] ==> later == version)
      ensures observed + Shown(later, before, operation, rows, answers + [answer]) ==
              observed + Shown(version, before, operation, rows, answers) +
              {Preview(later.value, before + Batch(operation, rows[..|answers| + 1]), None, answer)}
    {
      assert (answers + [answer])[..|answers|] == answers;
    }

    /** One more row staged and shown, in terms of the batch. */
    lemma RowAdded(observed: set<Preview>, version: Option<nat>, later: Option<nat>, before: seq<Statement>,
                   operation: Text, rows: seq<Params>, answers: seq<C.Response>, answer: C.Response,
                   staged: seq<Statement>, more: seq<Statement>, shown: set<Preview>, also: set<Preview>)
      requires |answers| < |rows| && later.Some? && (answers != [] ==> later == version)
      requires staged == before + Batch(operation, rows[..|answers|])
      requires more == staged + [Statement(operation, rows[|answers|])]
      requires shown == observed + Shown(version, before, operation, rows, answers)
      requires also == shown + {Preview(later.value, more, None, answer)}
      ensures more == before + Batch(operation, rows[..|answers + [answer]|])
      ensures also == observed + Shown(later, before, operation, rows, answers + [answer])
    {
      BatchMore(operation, rows, before, |answers|);
      OneMoreShown(observed, version, later, before, operation, rows, answers, answer);
    }

    lemma OneMoreChange(answers: seq<C.Response>, answer: C.Response)
      ensures TotalChanges(answers + [answer]) == TotalChanges(answers) + answer.changes
    {
      assert (answers + [answer])[..|answers|] == answers;
    }

    /** The failure path of `executemany`: back to the statements from before the call. */
    method Restore(before: seq<Statement>, auto: bool)
      requires connection.Valid() && before <= connection.statements
      requires connection.savepoints != [] ==> connection.savepoints[|connection.savepoints| - 1].1 <= |before|
      modifies connection
      ensures connection.Valid() && connection.autocommit == old(connection.autocommit)
      ensures auto && connection.native.pending.None? ==>
                connection.State() == Cleared(old(connection.State()))
      ensures !(auto && connection.native.pending.None?) ==>
                && connection.State() == old(connection.State()).(statements := before)
                && connection.snapshots == old(connection.snapshots) && connection.observed == old(connection.observed)
    {
      if auto && connection.native.pending.None? {
        connection.Clear();
        return;
      }
      var n := |before|;
      if connection.version.Some? {
        PrefixesOfPrefix(connection.observed, connection.version.value, connection.statements, n);
      }
      assert connection.statements[..n] == before;
      forall i | 0 <= i < |connection.savepoints|
        ensures connection.savepoints[i].1 <= n
                && before[..connection.savepoints[i].1] == connection.statements[..connection.savepoints[i].1]
      {
        assert connection.savepoints[i].1 <= connection.savepoints[|connection.savepoints| - 1].1;
      }
      connection.statements := before;
    }

    /** `execute` as the loop of `executemany` calls it. */
    method ExecuteRow(operation: Statement, net: Attempts, ghost result: Prepared<C.Response>)
      returns (error: Option<DbError>, answer: Option<C.Response>)
      requires result == Reply(connection.State(), connection.native.State(), operation, true, net)
      requires connection.Rest() && Error().None? && !connection.autocommit
      requires connection.dialect.kind(operation.text) == WriteKind
      modifies this`rowcount, this`lastrowid, connection
      modifies connection.native`index, connection.native`epoch, connection.native`pending, connection.native`sequence
      ensures connection.Rest() && (error.None? <==> answer.Some?)
      ensures !connection.autocommit && connection.closed == old(connection.closed)
      ensures connection.native.pending == old(connection.native.pending)
      ensures connection.native.sequence == old(connection.native.sequence)
      ensures connection.savepoints == old(connection.savepoints) && connection.snapshots == old(connection.snapshots)
      ensures old(connection.version).Some? ==> connection.version == old(connection.version)
      ensures answer.None? ==>
                connection.statements == old(connection.statements) && connection.observed == old(connection.observed)
      ensures Told(result, None, error, answer)
      ensures answer.Some? ==>
                && Opened(old(connection.version), old(connection.native.State()), net.begin)
                && rowcount == answer.value.changes && !connection.failed
                && connection.statements == old(connection.statements) + [operation]
                && connection.observed == old(connection.observed) +
                     {Preview(connection.version.value, connection.statements, None, answer.value)}
    {
      error, answer := Execute(operation, net);
    }

    /** After the rows answered so far: they are staged, each was previewed, and nothing else
        moved. */
    ghost predicate RowsStaged(before: Tx, observed: set<Preview>, operation: Text, rows: seq<Params>,
                               answers: seq<C.Response>)
      reads connection, connection.native
    {
      && !connection.autocommit && connection.closed == before.closed && connection.native.pending == None
      && connection.savepoints == before.savepoints
      && (before.version.Some? ==> connection.version == before.version)
      && |answers| <= |rows|
      && connection.statements == before.statements + Batch(operation, rows[..|answers|])
      && connection.observed == observed + Shown(connection.version, before.statements, operation, rows, answers)
    }

    /** What previewing row `i` comes to, with the rows before it staged. */
    function RowReply(before: Tx, native: C.Retry, operation: Text, rows: seq<Params>, i: nat, net: nat -> Attempts)
      : Prepared<C.Response>
      requires i < |rows|
    {
      var opening := connection.Opening(before, native.epoch, net(0).begin);
      var t := before.(statements := before.statements + Batch(operation, rows[..i]),
                       version := if i == 0 || opening.Err? then before.version else Some(opening.value));
      Reply(t, native, Statement(operation, rows[i]), true, net(i))
    }

    /** The answers are those of the rows' previews, in order. */
    ghost predicate Answers(before: Tx, native: C.Retry, operation: Text, rows: seq<Params>, net: nat -> Attempts,
                            answers: seq<C.Response>)
    {
      |answers| <= |rows| &&
      forall i | 0 <= i < |answers| :: RowReply(before, native, operation, rows, i, net) == Good(answers[i])
    }

    /** The first failing row decides the failure. */
    ghost predicate RowsTold(before: Tx, native: C.Retry, operation: Text, rows: seq<Params>, net: nat -> Attempts,
                             failure: Option<DbError>, answers: seq<C.Response>)
    {
      && Answers(before, native, operation, rows, net, answers)
      && if |answers| == |rows| then failure == None
         else Told(RowReply(before, native, operation, rows, |answers|, net), None, failure, None)
    }

    lemma RowReplyIs(before: Tx, native: C.Retry, operation: Text, rows: seq<Params>, i: nat, net: nat -> Attempts,
                     t: Tx, now: C.Retry)
      requires i < |rows| && now.pending == native.pending
      requires t.statements == before.statements + Batch(operation, rows[..i])
      requires i == 0 ==> t.version == before.version && now == native
      requires i > 0 ==> t.version.Some?
      requires i > 0 ==> connection.Opening(before, native.epoch, net(0).begin) == C.Ok(t.version.value)
      ensures Reply(t, now, Statement(operation, rows[i]), true, net(i)) ==
              RowReply(before, native, operation, rows, i, net)
    {
    }

    /** What a row of a batch comes to, from the answers: it is a write on top of the rows before
        it, at the revision that the first of them was previewed at. */
    lemma RowMeaning(before: Tx, native: C.Retry, operation: Text, rows: seq<Params>, i: nat, net: nat -> Attempts,
                     error: Option<DbError>, answer: Option<C.Response>) returns (t: Tx)
      requires native.pending.None? && i < |rows|
      requires Told(RowReply(before, native, operation, rows, i, net), None, error, answer)
      ensures t == before.(version := t.version, statements := before.statements + Batch(operation, rows[..i]))
      ensures before.version.Some? || i == 0 ==> t.version == before.version
      ensures before.version.None? && i > 0 ==> (t.version.Some? <==> Begins(before, net(0).begin))
      ensures StatementTold(t, Statement(operation, rows[i]), true, net(i), error, answer)
    {
      var opening := connection.Opening(before, native.epoch, net(0).begin);
      t := before.(statements := before.statements + Batch(operation, rows[..i]),
                   version := if i == 0 || opening.Err? then before.version else Some(opening.value));
      if before.version.None? { BeginsMeaning(before, native, net(0).begin); }
      StatementMeaning(t, native, Statement(operation, rows[i]), true, net(i), error, answer);
    }

    lemma AnswersMore(before: Tx, native: C.Retry, operation: Text, rows: seq<Params>, net: nat -> Attempts,
                      answers: seq<C.Response>, answer: C.Response)
      requires Answers(before, native, operation, rows, net, answers) && |answers| < |rows|
      requires RowReply(before, native, operation, rows, |answers|, net) == Good(answer)
      ensures Answers(before, native, operation, rows, net, answers + [answer])
    {
    }

    ghost predicate Underway(before: Tx, native: C.Retry, answers: seq<C.Response>, net: nat -> Attempts)
      reads connection, connection.native
    {
      if answers == [] then connection.native.State() == native && connection.version == before.version
      else Opened(before.version, native, net(0).begin)
    }

    /** One turn of the loop of `executemany`. */
    method StageRow(ghost before: Tx, ghost native: C.Retry, ghost observed: set<Preview>, operation: Text,
                    rows: seq<Params>, answers: seq<C.Response>, net: nat -> Attempts,
                    ghost result: Prepared<C.Response>)
      returns (error: Option<DbError>, answer: Option<C.Response>)
      requires connection.Rest() && Error().None? && connection.dialect.kind(operation) == WriteKind
      requires native.pending.None? && |answers| < |rows|
      requires result == RowReply(before, native, operation, rows, |answers|, net)
      requires RowsStaged(before, observed, operation, rows, answers) && Underway(before, native, answers, net)
      modifies this`rowcount, this`lastrowid, connection
      modifies connection.native`index, connection.native`epoch, connection.native`pending, connection.native`sequence
      ensures connection.Rest() && connection.snapshots == old(connection.snapshots)
      ensures connection.native.sequence == old(connection.native.sequence)
      ensures Told(result, None, error, answer)
      ensures error.Some? ==> RowsStaged(before, observed, operation, rows, answers)
      ensures error.None? ==>
                && RowsStaged(before, observed, operation, rows, answers + [answer.value])
                && Underway(before, native, answers + [answer.value], net)
                && Error().None? && rowcount == answer.value.changes
    {
      ghost var t, shown := connection.State(), connection.observed;
      var next := Statement(operation, rows[|answers|]);
      RowReplyIs(before, native, operation, rows, |answers|, net, t, connection.native.State());
      error, answer := ExecuteRow(next, net(|answers|), result);
      if error.None? {
        RowAdded(observed, t.version, connection.version, before.statements, operation, rows, answers, answer.value,
                 t.statements, connection.statements, shown, connection.observed);
      }
    }

    /** The loop of `executemany`: every row staged, or the failure of the first that was
        not, with what came before it still staged. */
    method StageAll(operation: Text, rows: seq<Params>, net: nat -> Attempts)
      returns (error: Option<DbError>, answers: seq<C.Response>)
      requires connection.Rest() && Error().None? && !connection.autocommit
      requires connection.dialect.kind(operation) == WriteKind
      modifies this`rowcount, this`lastrowid, connection
      modifies connection.native`index, connection.native`epoch, connection.native`pending, connection.native`sequence
      ensures connection.Rest() && connection.snapshots == old(connection.snapshots)
      ensures connection.native.sequence == old(connection.native.sequence)
      ensures RowsStaged(old(connection.State()), old(connection.observed), operation, rows, answers)
      ensures RowsTold(old(connection.State()), old(connection.native.State()), operation, rows, net, error, answers)
      ensures error.None? <==> |answers| == |rows|
      ensures error.None? ==> !connection.failed && rowcount == TotalChanges(answers) && lastrowid == None
      ensures error.None? && rows != [] ==> Opened(old(connection.version), old(connection.native.State()),
              net(0).begin)
    {
      ghost var before, native, observed := connection.State(), connection.native.State(), connection.observed;
      var count := 0;
      answers := [];
      error := None;
      assert before.statements + Batch(operation, rows[..0]) == before.statements;
      while |answers| < |rows|
        invariant connection.Rest() && connection.snapshots == old(connection.snapshots)
        invariant connection.native.sequence == native.sequence
        invariant RowsStaged(before, observed, operation, rows, answers)
        invariant Answers(before, native, operation, rows, net, answers)
        invariant error == None && Error().None? && count == TotalChanges(answers)
        invariant Underway(before, native, answers, net)
        decreases |rows| - |answers|
      {
        var answer;
        error, answer := StageRow(before, native, observed, operation, rows, answers, net,
                                  RowReply(before, native, operation, rows, |answers|, net));
        if error.Some? {
          assert RowsTold(before, native, operation, rows, net, error, answers);
          return;
        }
        AnswersMore(before, native, operation, rows, net, answers, answer.value);
        OneMoreChange(answers, answer.value);
        assert count + rowcount == TotalChanges(answers + [answer.value]);
        count := count + rowcount;
        answers := answers + [answer.value];
      }
      rowcount, lastrowid := count, None;
    }

    /** What an `executemany` that got past its checks leaves behind.  In a transaction: all
        the rows staged on top, or none.  In autocommit: one commit of exactly the rows, and
        something left open only when the fate of that commit is not known. */
    ghost predicate Batched(before: Tx, native: C.Retry, operation: Text, rows: seq<Params>, net: nat -> Attempts,
                            error: Option<DbError>, answers: seq<C.Response>)
      reads connection, connection.native
    {
      if before.autocommit then
        && AutoCommitted(before, native, Batch(operation, rows), net(0).begin, net(|rows|), |answers| == |rows|,
                error.None?)
        && connection.statements == []
      else
        && connection.savepoints == before.savepoints
        && (before.version.Some? ==> connection.version == before.version)
        && (error.None? ==> !connection.failed)
        && connection.statements == before.statements + (if error.None? then Batch(operation, rows) else [])
    }

    /** What the caller of an `executemany` is told: the answers of the rows up to the first
        failure and that failure, or that of the final commit. */
    ghost predicate BatchTold(before: Tx, native: C.Retry, operation: Text, rows: seq<Params>, net: nat -> Attempts,
                              error: Option<DbError>, answers: seq<C.Response>)
    {
      && |answers| <= |rows|
      && RowsTold(before, native, operation, rows, net, if |answers| < |rows| then error else None, answers)
      && (|answers| == |rows| && !before.autocommit ==> error == None)
      && (|answers| == |rows| && before.autocommit ==>
            && connection.dialect.compose(Batch(operation, rows)).Good?
            && var (retry, result) := AutoCommit(native, Batch(operation, rows), net(0).begin, net(|rows|));
               error == if result.Ok? then None else Some(Translate(result.failure, retry.pending)))
    }

    /** The end of `executemany`: the commit of an autocommit connection, and the way back
        after a failure. */
    method FinishBatch(before: seq<Statement>, auto: bool, failure: Option<DbError>, net: Attempts)
      returns (error: Option<DbError>)
      requires connection.Valid() && before <= connection.statements && connection.native.pending.None?
      requires connection.savepoints != [] ==> connection.savepoints[|connection.savepoints| - 1].1 <= |before|
      requires failure.None? ==> connection.Error(false).None? && connection.statements != []
      modifies connection
      modifies connection.native`index, connection.native`epoch, connection.native`pending, connection.native`sequence
      ensures connection.Valid() && connection.autocommit == auto && connection.closed == old(connection.closed)
      ensures !auto ==>
                && error == failure && connection.observed == old(connection.observed) &&
                        connection.snapshots == old(connection.snapshots)
                && connection.native.State() == old(connection.native.State())
                && connection.State() == old(connection.State()).(autocommit := auto,
                     statements := if failure.None? then old(connection.statements) else before)
      ensures auto && connection.native.pending.None? ==>
                connection.State() == Cleared(old(connection.State())).(autocommit := auto)
      ensures auto && connection.native.pending.Some? ==>
                connection.failed && connection.version.Some? && connection.statements == before && error.Some?
      ensures auto && failure.Some? ==>
                error == failure && connection.native.State() == old(connection.native.State())
      ensures auto && failure.None? ==>
                && connection.dialect.compose(old(connection.statements)).Good?
                && var (retry, answer) :=
                     C.Submitted(connection.native.cluster, connection.native.session, old(connection.native.State()),
                       Content(old(connection.version).value,
                               connection.dialect.compose(old(connection.statements)).value),
                       net.epoch, net.commit);
                   connection.native.State() == retry &&
                   error == if answer.Ok? then None else Some(Translate(answer.failure, retry.pending))
    {
      error := failure;
      if error.None? && auto {
        error := CommitAll(net);
      }
      if error.Some? {
        Restore(before, auto);
      }
      connection.Switch(auto);
    }

    /** The one commit of a batch in autocommit. */
    method CommitAll(net: Attempts) returns (error: Option<DbError>)
      requires connection.Valid() && connection.Error(false).None? && connection.statements != []
      modifies connection
      modifies connection.native`index, connection.native`epoch, connection.native`pending, connection.native`sequence
      ensures connection.Valid()
      ensures old(connection.version).Some? && connection.dialect.compose(old(connection.statements)).Good?
      ensures var (retry, answer) :=
                C.Submitted(connection.native.cluster, connection.native.session, old(connection.native.State()),
                  Content(old(connection.version).value,
                          connection.dialect.compose(old(connection.statements)).value),
                  net.epoch, net.commit);
              && connection.native.State() == retry
              && error == (if answer.Ok? then None else Some(Translate(answer.failure, retry.pending)))
              && (error.None? ==> retry.pending.None?)
      ensures connection.State() ==
                if error.None? then Cleared(old(connection.State())) else old(connection.State()).(failed := true)
    {
      connection.StagedComposes();
      error := connection.Commit(net.epoch, net.commit);
    }

    /** The body of `executemany`, with autocommit switched off while the rows are staged. */
    method RunBatch(operation: Text, rows: seq<Params>, net: nat -> Attempts)
      returns (error: Option<DbError>, answers: seq<C.Response>)
      requires connection.Rest() && Error().None? && connection.dialect.kind(operation) == WriteKind && rows != []
      modifies this`rowcount, this`lastrowid, connection
      modifies connection.native`index, connection.native`epoch, connection.native`pending, connection.native`sequence
      ensures connection.Rest()
      ensures connection.autocommit == old(connection.autocommit) && connection.closed == old(connection.closed)
      ensures Batched(old(connection.State()), old(connection.native.State()), operation, rows, net, error,
              answers)
      ensures BatchTold(old(connection.State()), old(connection.native.State()), operation, rows, net, error, answers)
      ensures !old(connection.autocommit) ==> connection.snapshots == old(connection.snapshots)
      ensures !old(connection.autocommit) ==>
                && connection.native.State() == old(connection.native.State()).(epoch := connection.native.epoch)
                && connection.observed == old(connection.observed) +
                     Shown(connection.version, old(connection.statements), operation, rows, answers)
      ensures error.None? ==> |answers| == |rows| && rowcount == TotalChanges(answers) && lastrowid == None
    {
      var auto, before := connection.autocommit, connection.statements;
      ghost var tx, native := connection.State(), connection.native.State();
      var failure;
      failure, answers := StageBatch(operation, rows, net);
      if auto && failure.None? {
        connection.StagedComposes();
        AutoCommitIs(tx, native, Batch(operation, rows), net(0).begin, net(|rows|), connection.version.value,
                     connection.native.State());
      }
      error := FinishBatch(before, auto, failure, net(|rows|));
    }

    /** The rows of `executemany`, staged with autocommit switched off. */
    method StageBatch(operation: Text, rows: seq<Params>, net: nat -> Attempts)
      returns (failure: Option<DbError>, answers: seq<C.Response>)
      requires connection.Rest() && Error().None? && connection.dialect.kind(operation) == WriteKind && rows != []
      modifies this`rowcount, this`lastrowid, connection
      modifies connection.native`index, connection.native`epoch, connection.native`pending, connection.native`sequence
      ensures connection.Rest() && !connection.autocommit && connection.native.pending == None
      ensures connection.closed == old(connection.closed)
      ensures connection.native.sequence == old(connection.native.sequence)
      ensures connection.savepoints == old(connection.savepoints) && connection.snapshots == old(connection.snapshots)
      ensures old(connection.version).Some? ==> connection.version == old(connection.version)
      ensures connection.savepoints != [] ==>
                connection.savepoints[|connection.savepoints| - 1].1 <= |old(connection.statements)|
      ensures old(connection.statements) <= connection.statements && |answers| <= |rows|
      ensures RowsTold(old(connection.State()), old(connection.native.State()), operation, rows, net, failure, answers)
      ensures failure.None? <==> |answers| == |rows|
      ensures failure.None? ==>
                && connection.Error(false).None? && rowcount == TotalChanges(answers) && lastrowid == None
                && Opened(old(connection.version), old(connection.native.State()), net(0).begin)
                && connection.statements == old(connection.statements) + Batch(operation, rows)
                && (old(connection.statements) == [] ==> connection.statements == Batch(operation, rows))
      ensures connection.observed == old(connection.observed) +
                Shown(connection.version, old(connection.statements), operation, rows, answers)
    {
      ghost var tx, native := connection.State(), connection.native.State();
      LastMark();
      connection.Switch(false);
      failure, answers := StageAll(operation, rows, net);
      BatchAll(operation, rows);
      SameRows(tx, connection.autocommit, native, operation, rows, net, failure, answers);
    }

    /** Whether autocommit is on makes no difference to what the rows come to. */
    lemma SameRows(before: Tx, auto: bool, native: C.Retry, operation: Text, rows: seq<Params>, net: nat -> Attempts,
                   failure: Option<DbError>, answers: seq<C.Response>)
      requires |answers| <= |rows|
      ensures RowsTold(before, native, operation, rows, net, failure, answers) <==>
              RowsTold(before.(autocommit := auto), native, operation, rows, net, failure, answers)
    {
      forall i | 0 <= i < |rows|
        ensures RowReply(before, native, operation, rows, i, net) ==
                RowReply(before.(autocommit := auto), native, operation, rows, i, net)
      {
      }
    }

    lemma LastMark()
      requires connection.Valid()
      ensures connection.savepoints != [] ==>
                connection.savepoints[|connection.savepoints| - 1].1 <= |connection.statements|
    {
      if connection.savepoints != [] {
        var i := |connection.savepoints| - 1;
        assert connection.snapshots[i].0 == connection.savepoints[i].0;
      }
    }

    /** `executemany` */
    method ExecuteMany(operation: Text, rows: seq<Params>, net: nat -> Attempts)
      returns (error: Option<DbError>, answers: seq<C.Response>)
      requires connection.Rest()
      modifies this`rowcount, this`lastrowid, connection
      modifies connection.native`index, connection.native`epoch, connection.native`pending, connection.native`sequence
      ensures connection.Rest()
      ensures connection.autocommit == old(connection.autocommit) && connection.closed == old(connection.closed)
      ensures old(Error()).Some? ==> error == old(Error())
      ensures old(closed) ==> error == Some(InterfaceError)
      ensures !old(closed) ==> old(Error()) == old(connection.Error(false))
      ensures old(Error()).None? && connection.dialect.kind(operation) != WriteKind ==>
                error == Some(if connection.dialect.kind(operation).Unclassified?
                              then connection.dialect.kind(operation).error else NotSupportedError)
      ensures old(Error()).None? && connection.dialect.kind(operation) == WriteKind && |rows| > 8 ==>
                error == Some(NotSupportedError)
      ensures old(Error()).Some? || connection.dialect.kind(operation) != WriteKind || |rows| > 8 || rows == [] ==>
                && connection.State() == old(connection.State()) && connection.observed == old(connection.observed)
                && connection.native.State() == old(connection.native.State())
      ensures old(Error()).None? && connection.dialect.kind(operation) == WriteKind && 1 <= |rows| <= 8 ==>
                && Batched(old(connection.State()), old(connection.native.State()), operation, rows, net, error,
                        answers)
                && BatchTold(old(connection.State()), old(connection.native.State()), operation, rows, net, error,
                        answers)
                && (!old(connection.autocommit) ==>
                      && connection.native.State() == old(connection.native.State()).(epoch := connection.native.epoch)
                      && connection.snapshots == old(connection.snapshots)
                      && connection.observed == old(connection.observed) +
                           Shown(connection.version, old(connection.statements), operation, rows, answers))
      ensures error.None? ==> |answers| == |rows| && rowcount == TotalChanges(answers) && lastrowid == None
    {
      answers := [];
      error := Error();
      if error.Some? {
        return;
      }
      var kind := connection.dialect.kind(operation);
      if kind != WriteKind {
        return Some(if kind.Unclassified? then kind.error else NotSupportedError), [];
      }
      if |rows| > 8 {
        return Some(NotSupportedError), [];
      }
      lastrowid, rowcount := None, 0;
      if rows == [] {
        return;
      }
      error, answers := RunBatch(operation, rows, net);
    }
  }
}
