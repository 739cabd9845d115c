/** The native client connection: one retry identity at a time, kept until its outcome is
    conclusive, with every attempt sent to the next endpoint under the same identity. */
module Client {
  import opened Common
  import opened Store
  import opened Division

  const MAX_I64: nat := 0x7fff_ffff_ffff_ffff

  /** The `error` of a response: an outcome, a service-level answer, or no known word. */
  datatype Word =
    | Of(code: Code)      // Of(Applied) is the empty error
    | Busy | UnknownOutcomeWord | ReadTimeout
    | InvalidRequest | Unsupported
    | Other

  datatype Failure =
    | ConnectionLost
    | UnknownOutcome(pending: Write)
    | PendingWriteError
    | SessionError(code: Code)
    | SerializationError
    | ConstraintError
    | QueryError(word: Word)
    | ValueError
    | Closed

  datatype Result<+T> = Ok(value: T) | Err(failure: Failure)

  datatype Operation = WriteOp | QueryOp | BeginOp | PreviewOp | EpochOp | RetireOp

  /** Only an execute request has its sequence compared with the response. */
  datatype Call = Call(op: Operation, sequence: nat)

  datatype Response = Response(cluster: string, protocol: int, statusKnown: bool, statusOk: bool,
                               counters: bool, sequence: nat, word: Option<Word>,
                               changes: nat, lastrowid: int, rows: Option<Rows>,
                               epoch: Option<int>, version: Option<int>)

  /** One attempt: the transport failed or timed out, or something came back. */
  datatype Exchange = Lost | Answered(response: Response)

  /** `_validate`; `counters` says that the four counters are non-negative integers. */
  predicate Valid(cluster: string, call: Call, r: Response)
  {
    && r.cluster == cluster && r.protocol == 1
    && r.statusKnown && r.counters
    && (call.op == WriteOp ==> r.sequence == call.sequence)
    && r.word.Some? && (r.statusOk <==> r.word.value == Of(Applied))
  }

  predicate Retried(w: Word)
  {
    w == Busy || w == UnknownOutcomeWord || w == ReadTimeout
  }

  /** The attempt ends the call. */
  predicate Final(cluster: string, call: Call, x: Exchange)
  {
    x.Answered? && Valid(cluster, call, x.response) && !Retried(x.response.word.value)
  }

  /** The number of attempts before the one that ends the call; all of them if none does. */
  function Attempts(cluster: string, call: Call, xs: seq<Exchange>): (n: nat)
    ensures n <= |xs|
    ensures forall i | 0 <= i < n :: !Final(cluster, call, xs[i])
    ensures n < |xs| ==> Final(cluster, call, xs[n])
  {
    if xs == [] || Final(cluster, call, xs[0]) then 0 else 1 + Attempts(cluster, call, xs[1..])
  }

  // ------------------------------------------------------------- the identity as a value

  /** A session's retry state.  `epoch` is discovered once. */
  datatype Retry = Retry(sequence: nat, epoch: Option<nat>, pending: Option<Write>)

  predicate SessionWord(w: Word)
  {
    w == Of(Expired) || w == Of(IdentityConflict) || w == Of(SessionLimit)
  }

  predicate Refused(w: Word)
  {
    w == InvalidRequest || w == Unsupported
  }

  /** The words after which the write is no longer pending. */
  predicate Settles(w: Word)
  {
    (w.Of? && !SessionWord(w)) || Refused(w)
  }

  /** A settled write frees its sequence for the next one, unless the service refused to
      look at it: then the next write reuses the number. */
  function Settle(c: Retry, w: Word): Retry
  {
    if !Settles(w) then c
    else Retry(if Refused(w) then c.sequence else c.sequence + 1, c.epoch, None)
  }

  function Begin(session: string, c: Retry, content: Content): Retry
    requires c.epoch.Some?
  {
    c.(pending := Some(Write(Identity(session, c.epoch.value, c.sequence), content)))
  }

  /** What the caller of a resolved write gets. */
  function Reply(w: Write, r: Response): Result<Response>
    requires r.word.Some?
  {
    var word := r.word.value;
    if word.Of? && SessionWord(word) then Err(SessionError(word.code))
    else if !Settles(word) then Err(UnknownOutcome(w))
    else if word == Of(Applied) then Ok(r)
    else if word == Of(Conflict) then Err(SerializationError)
    else if word == Of(Constraint) then Err(ConstraintError)
    else Err(QueryError(word))
  }

  /** `_raise_query` */
  function QueryAnswer(r: Response): Result<Response>
    requires r.word.Some?
  {
    if r.statusOk then Ok(r)
    else match r.word.value
      case Of(Conflict) => Err(SerializationError)
      case Of(Constraint) => Err(ConstraintError)
      case word => Err(QueryError(word))
  }

  /** The attempt `n` is the first that ends the call. */
  ghost predicate FirstFinal(cluster: string, call: Call, xs: seq<Exchange>, n: nat)
  {
    n < |xs| && Final(cluster, call, xs[n]) && forall i | 0 <= i < n :: !Final(cluster, call, xs[i])
  }

  /** What a call that waits for one valid answer yields. */
  function Called(cluster: string, call: Call, xs: seq<Exchange>): (r: Result<Response>)
    ensures r.Ok? ==> exists n: nat :: FirstFinal(cluster, call, xs, n) && xs[n] == Answered(r.value)
    ensures r.Err? ==> r.failure == ConnectionLost && forall x | x in xs :: !Final(cluster, call, x)
  {
    var n := Attempts(cluster, call, xs);
    if n < |xs| then Ok(xs[n].response) else Err(ConnectionLost)
  }

  lemma CalledFirst(cluster: string, call: Call, xs: seq<Exchange>, n: nat)
    requires FirstFinal(cluster, call, xs, n)
    ensures Called(cluster, call, xs) == Ok(xs[n].response)
  {
    assert Attempts(cluster, call, xs) == n;
  }

  /** A resolution, as a function of the pending write and of what the attempts bring. */
  function Resolved(cluster: string, c: Retry, xs: seq<Exchange>): (Retry, Result<Response>)
    requires c.pending.Some?
  {
    var w := c.pending.value;
    match Called(cluster, Call.Call(WriteOp, w.id.sequence), xs)
    case Err(_) => (c, Err(UnknownOutcome(w)))
    case Ok(r) => (Settle(c, r.word.value), Reply(w, r))
  }

  /** Reading the epoch: a service that does not know the operation has epoch zero only. */
  function EpochAnswer(r: Response): Result<nat>
    requires r.word.Some?
  {
    if r.word.value == Unsupported then Ok(0)
    else if QueryAnswer(r).Err? then Err(QueryAnswer(r).failure)
    else if r.epoch.None? || r.epoch.value < 0 || MAX_I64 < r.epoch.value then Err(ConnectionLost)
    else Ok(r.epoch.value)
  }

  function Discovered(cluster: string, xs: seq<Exchange>): Result<nat>
  {
    match Called(cluster, Call.Call(EpochOp, 0), xs)
    case Err(f) => Err(f)
    case Ok(r) => EpochAnswer(r)
  }

  /** A call whose error answers are raised as query errors. */
  function Asked(cluster: string, op: Operation, xs: seq<Exchange>): Result<Response>
  {
    match Called(cluster, Call.Call(op, 0), xs)
    case Err(f) => Err(f)
    case Ok(r) => QueryAnswer(r)
  }

  /** What a query answer with this word is to the caller: the response itself for the empty
      word, and otherwise an error that tells conflicts and constraints from all the rest. */
  ghost predicate WordMeans<T>(word: Word, good: Result<T>, r: Result<T>)
  {
    match word
    case Of(Applied) => r == good
    case Of(Conflict) => r == Err(SerializationError)
    case Of(Constraint) => r == Err(ConstraintError)
    case _ => r == Err(QueryError(word))
  }

  /** A call that raises its error answers: the first answer that ends it decides. */
  ghost predicate CallMeans(cluster: string, op: Operation, xs: seq<Exchange>, r: Result<Response>)
  {
    var call := Call.Call(op, 0);
    || ((forall x | x in xs :: !Final(cluster, call, x)) && r == Err(ConnectionLost))
    || exists n: nat :: FirstFinal(cluster, call, xs, n) && WordMeans(xs[n].response.word.value, Ok(xs[n].response), r)
  }

  lemma AskedMeaning(cluster: string, op: Operation, xs: seq<Exchange>)
    ensures CallMeans(cluster, op, xs, Asked(cluster, op, xs))
  {
    var call := Call.Call(op, 0);
    if Called(cluster, call, xs).Ok? {
      var n: nat :| FirstFinal(cluster, call, xs, n) && xs[n] == Answered(Called(cluster, call, xs).value);
      assert WordMeans(xs[n].response.word.value, Ok(xs[n].response), Asked(cluster, op, xs));
    }
  }

  /** The result of a retirement that was sent: the first final answer decides.  It is a
      success exactly if it reports an epoch past the expected one. */
  ghost predicate RetirementAnswered(cluster: string, expected: int, xs: seq<Exchange>, r: Result<nat>)
  {
    var call := Call.Call(RetireOp, 0);
    || ((forall x | x in xs :: !Final(cluster, call, x)) && r == Err(ConnectionLost))
    || exists n: nat :: FirstFinal(cluster, call, xs, n) && RetirementReads(xs[n].response, expected, r)
  }

  ghost predicate RetirementReads(x: Response, expected: int, r: Result<nat>)
    requires x.word.Some?
  {
    && (r.Ok? ==> x.statusOk && x.epoch == Some(r.value) && expected < r.value)
    && (x.statusOk && r.Err? ==> r.failure == ConnectionLost && (x.epoch.None? || x.epoch.value <= expected))
    && (!x.statusOk ==> WordMeans(x.word.value, r, r))
  }

  /** A new write: refused while another is pending, discovering the epoch if need be. */
  function Submitted(cluster: string, session: string, c: Retry, content: Content,
                     epochXs: seq<Exchange>, xs: seq<Exchange>): (Retry, Result<Response>)
  {
    if c.pending.Some? then (c, Err(PendingWriteError))
    else if c.epoch.None? && Discovered(cluster, epochXs).Err? then
      (c, Err(Discovered(cluster, epochXs).failure))
    else
      var known := if c.epoch.None? then c.(epoch := Some(Discovered(cluster, epochXs).value)) else c;
      if c.sequence < 1 || MAX_I64 < c.sequence || MAX_I64 < content.readVersion then (known, Err(ValueError))
      else Resolved(cluster, Begin(session, known, content), xs)
  }

  // ----------------------------------------------------------------------- the connection

  class Connection {
    const cluster: string
    const endpoints: nat
    const session: string
    var sequence: nat
    var epoch: Option<nat>
    var pending: Option<Write>
    var index: nat
    var closed: bool
    var buffering: bool   // a buffered transaction is open

    function State(): Retry
      reads this
    {
      Retry(sequence, epoch, pending)
    }

    ghost predicate Usable()
      reads this
    {
      index < endpoints
    }

    /** A saved pending write determines everything about a recovered connection: it is the
        connection that saved it. */
    constructor (cluster: string, endpoints: nat, saved: Option<Write>, token: string)
      requires endpoints > 0
      ensures Usable() && this.cluster == cluster && this.endpoints == endpoints && !closed && !buffering
      ensures saved.None? ==> session == token && State() == Retry(1, None, None)
      ensures saved.Some? ==> session == saved.value.id.session
      ensures saved.Some? ==>
                State() == Retry(saved.value.id.sequence, Some(saved.value.id.epoch), saved)
    {
      this.cluster := cluster;
      this.endpoints := endpoints;
      session := if saved.Some? then saved.value.id.session else token;
      sequence := if saved.Some? then saved.value.id.sequence else 1;
      epoch := if saved.Some? then Some(saved.value.id.epoch) else None;
      pending := saved;
      index := 0;
      closed := false;
      buffering := false;
    }

    /** `_ready` */
    function Ready(): (refusal: Option<Failure>)
      reads this
      ensures closed ==> refusal == Some(Closed)
      ensures buffering && !closed ==> refusal == Some(PendingWriteError)
      ensures refusal.None? <==> !closed && !buffering
    {
      if closed then Some(Closed) else if buffering then Some(PendingWriteError) else None
    }

    /** `_call`: attempts until one is conclusive for the transport, moving to the next
        endpoint after each that is not. */
    method Exchanges(call: Call, xs: seq<Exchange>) returns (r: Result<Response>)
      requires Usable()
      modifies this`index
      ensures Usable()
      ensures r == Called(cluster, call, xs)
      ensures index == Rotated(old(index), endpoints, Attempts(cluster, call, xs))
    {
      var i := 0;
      while i < |xs|
        invariant i <= |xs| && Usable()
        invariant index == Rotated(old(index), endpoints, i)
        invariant Attempts(cluster, call, xs) == i + Attempts(cluster, call, xs[i..])
      {
        var x := xs[i];
        if x.Answered? && Valid(cluster, call, x.response) {
          if !Retried(x.response.word.value) {
            return Ok(x.response);
          }
        }
        Rotate(old(index), i);
        index := (index + 1) % endpoints;
        i := i + 1;
      }
      r := Err(ConnectionLost);
    }

    lemma Rotate(from: nat, i: nat)
      requires from < endpoints
      ensures Rotated(from, endpoints, i + 1) == (Rotated(from, endpoints, i) + 1) % endpoints
    {
      ModSucc(from + i, endpoints);
    }

    /** `_resolve` */
    method Resolve(xs: seq<Exchange>) returns (r: Result<Response>)
      requires Usable() && pending.Some?
      modifies this`index, this`pending, this`sequence
      ensures Usable() && (State(), r) == Resolved(cluster, old(State()), xs)
    {
      var w := pending.value;
      var call := Call.Call(WriteOp, w.id.sequence);
      var answer := Exchanges(call, xs);
      if answer.Err? {
        return Err(UnknownOutcome(w));
      }
      var word := answer.value.word.value;
      if word.Of? && SessionWord(word) {
        return Err(SessionError(word.code));
      }
      if !Settles(word) {
        return Err(UnknownOutcome(w));
      }
      pending := None;
      if !Refused(word) {
        sequence := sequence + 1;
      }
      r := Reply(w, answer.value);
    }

    /** `resolve_pending` */
    method ResolvePending(xs: seq<Exchange>) returns (r: Result<Response>)
      requires Usable()
      modifies this`index, this`pending, this`sequence
      ensures Usable()
      ensures old(Ready()).Some? ==> State() == old(State()) && r == Err(old(Ready()).value)
      ensures old(Ready()).None? && old(pending).None? ==> State() == old(State()) && r == Err(PendingWriteError)
      ensures old(Ready()).None? && old(pending).Some? ==> (State(), r) == Resolved(cluster, old(State()), xs)
    {
      var ready := Ready();
      if ready.Some? {
        return Err(ready.value);
      }
      if pending.None? {
        return Err(PendingWriteError);
      }
      r := Resolve(xs);
    }

    /** `session_epoch` */
    method SessionEpoch(xs: seq<Exchange>) returns (r: Result<nat>)
      requires Usable()
      modifies this`index
      ensures Usable()
      ensures r == if old(Ready()).Some? then Err(old(Ready()).value) else Discovered(cluster, xs)
    {
      var ready := Ready();
      if ready.Some? {
        return Err(ready.value);
      }
      var call := Call.Call(EpochOp, 0);
      var answer := Exchanges(call, xs);
      if answer.Err? {
        return Err(answer.failure);
      }
      r := EpochAnswer(answer.value);
    }

    /** `_execute_prepared` */
    method ExecutePrepared(content: Content, epochXs: seq<Exchange>, xs: seq<Exchange>) returns (r: Result<Response>)
      requires Usable() && !buffering && !closed
      modifies this`index, this`pending, this`sequence, this`epoch
      ensures Usable()
      ensures (State(), r) == Submitted(cluster, session, old(State()), content, epochXs, xs)
    {
      if pending.Some? {
        return Err(PendingWriteError);
      }
      if epoch.None? {
        var found := SessionEpoch(epochXs);
        if found.Err? {
          return Err(found.failure);
        }
        epoch := Some(found.value);
      }
      if sequence < 1 || MAX_I64 < sequence || MAX_I64 < content.readVersion {
        return Err(ValueError);
      }
      pending := Some(Write(Identity(session, epoch.value, sequence), content));
      r := Resolve(xs);
    }

    /** `execute` */
    method ExecuteWrite(content: Content, epochXs: seq<Exchange>, xs: seq<Exchange>) returns (r: Result<Response>)
      requires Usable()
      modifies this`index, this`pending, this`sequence, this`epoch
      ensures Usable()
      ensures old(Ready()).Some? ==> State() == old(State()) && r == Err(old(Ready()).value)
      ensures old(Ready()).None? ==>
                (State(), r) == Submitted(cluster, session, old(State()), content, epochXs, xs)
    {
      var ready := Ready();
      if ready.Some? {
        return Err(ready.value);
      }
      r := ExecutePrepared(content, epochXs, xs);
    }

    /** `retire_sessions`: never with a write of its own unresolved. */
    method RetireSessions(expected: int, xs: seq<Exchange>) returns (r: Result<nat>)
      requires Usable()
      modifies this`index
      ensures Usable()
      ensures expected < 0 || MAX_I64 <= expected ==> r == Err(ValueError)
      ensures 0 <= expected < MAX_I64 && old(Ready()).Some? ==> r == Err(old(Ready()).value)
      ensures 0 <= expected < MAX_I64 && old(Ready()).None? && pending.Some? ==> r == Err(PendingWriteError)
      ensures 0 <= expected < MAX_I64 && old(Ready()).None? && pending.None? ==>
                RetirementAnswered(cluster, expected, xs, r)
      ensures r.Ok? ==> pending.None? && !closed && !buffering && expected < r.value
    {
      if expected < 0 || MAX_I64 <= expected {
        return Err(ValueError);
      }
      var ready := Ready();
      if ready.Some? {
        return Err(ready.value);
      }
      if pending.Some? || buffering {
        return Err(PendingWriteError);
      }
      var answer := Ask(RetireOp, xs);
      if answer.Err? {
        return Err(answer.failure);
      }
      var found := answer.value.epoch;
      if found.None? || found.value < expected + 1 {
        return Err(ConnectionLost);
      }
      r := Ok(found.value);
    }

    /** `_call` followed by `_raise_query`, as in `query` and `_preview`. */
    method Ask(op: Operation, xs: seq<Exchange>) returns (r: Result<Response>)
      requires Usable()
      modifies this`index
      ensures Usable()
      ensures r == if old(Ready()).Some? then Err(old(Ready()).value) else Asked(cluster, op, xs)
    {
      var ready := Ready();
      if ready.Some? {
        return Err(ready.value);
      }
      var answer := Exchanges(Call.Call(op, 0), xs);
      if answer.Err? {
        return answer;
      }
      r := QueryAnswer(answer.value);
    }

    /** `_begin_optimistic`: the fresh revision, and the epoch if none is known yet. */
    method BeginOptimistic(xs: seq<Exchange>) returns (r: Result<nat>)
      requires Usable()
      modifies this`index, this`epoch
      ensures Usable()
      ensures old(Ready()).Some? ==> r == Err(old(Ready()).value) && epoch == old(epoch)
      ensures old(Ready()).None? ==> (epoch, r) == Begun(old(epoch), Asked(cluster, BeginOp, xs))
    {
      var answer := Ask(BeginOp, xs);
      if answer.Err? {
        return Err(answer.failure);
      }
      var found := if answer.value.epoch.Some? then answer.value.epoch.value else 0;
      if found < 0 || MAX_I64 < found {
        return Err(ConnectionLost);
      }
      if epoch.None? {
        epoch := Some(found);
      }
      var version := answer.value.version;
      if version.None? || version.value < 1 || MAX_I64 < version.value {
        return Err(ConnectionLost);
      }
      r := Ok(version.value);
    }
  }

  /** A malformed revision still leaves the epoch discovered. */
  function Begun(known: Option<nat>, asked: Result<Response>): (r: (Option<nat>, Result<nat>))
    ensures known.Some? ==> r.0 == known
    ensures r.1.Ok? ==> r.0.Some? && 1 <= r.1.value <= MAX_I64
  {
    if asked.Err? then (known, Err(asked.failure))
    else
      var found := if asked.value.epoch.Some? then asked.value.epoch.value else 0;
      if found < 0 || MAX_I64 < found then (known, Err(ConnectionLost))
      else
        var epoch := if known.None? then Some(found) else known;
        var version := asked.value.version;
        if version.None? || version.value < 1 || MAX_I64 < version.value then (epoch, Err(ConnectionLost))
        else (epoch, Ok(version.value))
  }

  /** The endpoint after `k` failed attempts. */
  function Rotated(index: nat, n: nat, k: nat): (r: nat)
    requires index < n
    ensures r < n
    ensures r == (index + k) % n
  {
    if k == 0 then
      ModSmall(index, n);
      index
    else
      ModSucc(index + k - 1, n);
      var i := Rotated(index, n, k - 1) + 1;
      if i == n then
        Unique(n, 1, 0, n);
        0
      else
        ModSmall(i, n);
        i
  }

  // -------------------------------------------------------- what the client never does

  /** A write stays pending, untouched, until its outcome is conclusive. */
  lemma PendingUntilConclusive(cluster: string, c: Retry, xs: seq<Exchange>)
    requires c.pending.Some?
    ensures var (d, r) := Resolved(cluster, c, xs);
            && (d.pending == c.pending || d.pending == None)
            && (d.pending == c.pending ==> d == c)
            && (d.pending.None? <==>
                  exists x | x in xs :: Final(cluster, Call.Call(WriteOp, c.pending.value.id.sequence), x)
                                        && Settles(x.response.word.value)
                                        && r == Reply(c.pending.value, x.response)
                                        && d == Settle(c, x.response.word.value))
            && (r.Ok? ==> d.pending.None? && d.sequence == c.sequence + 1)
            && (r == Err(UnknownOutcome(c.pending.value)) ==> d == c)
  {
    var call := Call.Call(WriteOp, c.pending.value.id.sequence);
    var (d, r) := Resolved(cluster, c, xs);
    if Called(cluster, call, xs).Ok? {
      var x := Answered(Called(cluster, call, xs).value);
      assert x in xs && Final(cluster, call, x);
    }
  }

  /** An answer ends a call if and only if it comes from the right cluster under the right
      protocol, is well formed, carries a write's own number, has an empty word exactly with a
      good status, and does not ask for another attempt. */
  lemma FinalMeaning(cluster: string, call: Call, x: Exchange)
    ensures Final(cluster, call, x) <==>
            && x != Lost && x.response.cluster == cluster && x.response.protocol == 1
            && x.response.statusKnown && x.response.counters
            && (call.op != WriteOp || x.response.sequence == call.sequence)
            && x.response.word !in {None, Some(Busy), Some(UnknownOutcomeWord), Some(ReadTimeout)}
            && x.response.statusOk == (x.response.word == Some(Of(Applied)))
  {
  }

  /** What a resolution comes to, word by word: the write counts as done, whatever its outcome;
      or it stays as it is, because the service does not know it or nothing is known of it; or
      the service refused to look at it, and its number is free again. */
  ghost predicate ResolutionMeans(c: Retry, w: Write, x: Response, d: Retry, r: Result<Response>)
    requires x.word.Some?
  {
    var next := Retry(c.sequence + 1, c.epoch, None);
    match x.word.value
    case Of(Applied) => d == next && r == Ok(x)
    case Of(Conflict) => d == next && r == Err(SerializationError)
    case Of(Constraint) => d == next && r == Err(ConstraintError)
    case Of(Expired) => d == c && r == Err(SessionError(Expired))
    case Of(IdentityConflict) => d == c && r == Err(SessionError(IdentityConflict))
    case Of(SessionLimit) => d == c && r == Err(SessionError(SessionLimit))
    case Of(_) => d == next && r == Err(QueryError(x.word.value))
    case InvalidRequest => d == Retry(c.sequence, c.epoch, None) && r == Err(QueryError(InvalidRequest))
    case Unsupported => d == Retry(c.sequence, c.epoch, None) && r == Err(QueryError(Unsupported))
    case _ => d == c && r == Err(UnknownOutcome(w))
  }

  /** A resolution: unknown while no answer ends the call, and otherwise what the first one
      means. */
  ghost predicate ResolvedTo(cluster: string, c: Retry, xs: seq<Exchange>, d: Retry, r: Result<Response>)
    requires c.pending.Some?
  {
    var w := c.pending.value;
    var call := Call.Call(WriteOp, w.id.sequence);
    || ((forall x | x in xs :: !Final(cluster, call, x)) && d == c && r == Err(UnknownOutcome(w)))
    || exists n: nat :: FirstFinal(cluster, call, xs, n) && ResolutionMeans(c, w, xs[n].response, d, r)
  }

  lemma ResolvedMeaning(cluster: string, c: Retry, xs: seq<Exchange>)
    requires c.pending.Some?
    ensures ResolvedTo(cluster, c, xs, Resolved(cluster, c, xs).0, Resolved(cluster, c, xs).1)
  {
    var w := c.pending.value;
    var call := Call.Call(WriteOp, w.id.sequence);
    var (d, r) := Resolved(cluster, c, xs);
    if Called(cluster, call, xs).Ok? {
      var n: nat :| FirstFinal(cluster, call, xs, n) && xs[n] == Answered(Called(cluster, call, xs).value);
      assert ResolutionMeans(c, w, xs[n].response, d, r);
    }
  }

  /** What the begin of an optimistic transaction reads from an answer. */
  ghost predicate BeginReads(known: Option<nat>, x: Response, epoch: Option<nat>, r: Result<nat>)
    requires x.word.Some?
  {
    if x.word.value != Of(Applied) then epoch == known && WordMeans(x.word.value, r, r)
    else
      var found := if x.epoch.None? then 0 else x.epoch.value;
      if !(0 <= found <= 0x7fff_ffff_ffff_ffff) then epoch == known && r == Err(ConnectionLost)
      else
        && epoch == (if known.Some? then known else Some(found))
        && if x.version.Some? && 1 <= x.version.value <= 0x7fff_ffff_ffff_ffff then r == Ok(x.version.value)
           else r == Err(ConnectionLost)
  }

  ghost predicate BeginMeans(cluster: string, known: Option<nat>, xs: seq<Exchange>, epoch: Option<nat>, r: Result<nat>)
  {
    var call := Call.Call(BeginOp, 0);
    || ((forall x | x in xs :: !Final(cluster, call, x)) && epoch == known && r == Err(ConnectionLost))
    || exists n: nat :: FirstFinal(cluster, call, xs, n) && BeginReads(known, xs[n].response, epoch, r)
  }

  lemma BegunMeaning(cluster: string, known: Option<nat>, xs: seq<Exchange>)
    ensures var (epoch, r) := Begun(known, Asked(cluster, BeginOp, xs)); BeginMeans(cluster, known, xs, epoch, r)
  {
    var call := Call.Call(BeginOp, 0);
    var (epoch, r) := Begun(known, Asked(cluster, BeginOp, xs));
    if Called(cluster, call, xs).Ok? {
      var n: nat :| FirstFinal(cluster, call, xs, n) && xs[n] == Answered(Called(cluster, call, xs).value);
      assert BeginReads(known, xs[n].response, epoch, r);
    }
  }

  /** What reading the epoch found: the first final answer decides, and a service that does not
      know the operation is at epoch zero. */
  lemma DiscoveredMeaning(cluster: string, xs: seq<Exchange>)
    ensures var call, r := Call.Call(EpochOp, 0), Discovered(cluster, xs);
            || ((forall x | x in xs :: !Final(cluster, call, x)) && r == Err(ConnectionLost))
            || exists n: nat :: FirstFinal(cluster, call, xs, n) && EpochReads(xs[n].response, r)
  {
    var call := Call.Call(EpochOp, 0);
    if Called(cluster, call, xs).Ok? {
      var n: nat :| FirstFinal(cluster, call, xs, n) && xs[n] == Answered(Called(cluster, call, xs).value);
      assert EpochReads(xs[n].response, Discovered(cluster, xs));
    }
  }

  ghost predicate EpochReads(x: Response, r: Result<nat>)
    requires x.word.Some?
  {
    && (x.word.value == Unsupported ==> r == Ok(0))
    && (x.statusOk ==>
          if x.epoch.Some? && 0 <= x.epoch.value <= MAX_I64 then r == Ok(x.epoch.value) else r == Err(ConnectionLost))
    && (!x.statusOk && x.word.value != Unsupported ==> WordMeans(x.word.value, r, r))
  }

  /** The numbers that a request may carry. */
  predicate InRange(sequence: nat, readVersion: nat)
  {
    1 <= sequence < 0x8000_0000_0000_0000 && readVersion < 0x8000_0000_0000_0000
  }

  /** What became of a write that was to be submitted. */
  datatype Submission = NotSent | Kept(write: Write) | Settled(write: Write, response: Response)

  /** A new write either is not sent, and nothing but a discovered epoch is new; or exactly it
      went out, under the client's number and its known or discovered epoch, and then it is
      pending still or was settled by a final answer. */
  lemma SubmittedMeaning(cluster: string, session: string, c: Retry, content: Content,
                         epochXs: seq<Exchange>, xs: seq<Exchange>) returns (fate: Submission)
    ensures var (d, r) := Submitted(cluster, session, c, content, epochXs, xs);
            && (c.epoch.Some? ==> d.epoch == c.epoch)
            && (c.epoch.None? && d.epoch.Some? ==> Discovered(cluster, epochXs) == Ok(d.epoch.value))
            && match fate
               case NotSent =>
                 r.Err? && d == c.(epoch := d.epoch)
                 && (if c.pending.Some? then r.failure == PendingWriteError
                     else if d.epoch.None? then Discovered(cluster, epochXs) == Err(r.failure)
                     else r.failure == ValueError && !InRange(c.sequence, content.readVersion))
               case Kept(w) =>
                 && c.pending.None? && d.epoch.Some? && InRange(c.sequence, content.readVersion)
                 && w == Write(Identity(session, d.epoch.value, c.sequence), content)
                 && d == c.(epoch := d.epoch, pending := Some(w))
                 && r.Err? && (r.failure == UnknownOutcome(w) || r.failure.SessionError?)
               case Settled(w, x) =>
                 && c.pending.None? && d.epoch.Some? && InRange(c.sequence, content.readVersion)
                 && w == Write(Identity(session, d.epoch.value, c.sequence), content)
                 && var call := Call.Call(WriteOp, c.sequence);
                 (exists n: nat :: FirstFinal(cluster, call, xs, n) && xs[n] == Answered(x))
                 && x.word.Some? && ResolutionMeans(c.(epoch := d.epoch, pending := Some(w)), w, x, d, r)
                 && d.pending.None?
  {
    var (d, r) := Submitted(cluster, session, c, content, epochXs, xs);
    fate := NotSent;
    if c.pending.None? && (c.epoch.Some? || Discovered(cluster, epochXs).Ok?) && r != Err(ValueError) {
      var known := if c.epoch.None? then c.(epoch := Some(Discovered(cluster, epochXs).value)) else c;
      var w := Begin(session, known, content).pending.value;
      var call := Call.Call(WriteOp, c.sequence);
      if d.pending.Some? {
        fate := Kept(w);
      } else {
        fate := Settled(w, Called(cluster, call, xs).value);
      }
    }
  }
}
