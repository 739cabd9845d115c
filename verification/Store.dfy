/** The replicated application state as one ordered log of requests sees it: request
    identities, recorded outcomes, the optimistic revision and the session epoch.
    SQL itself is a deterministic function of the data and the request body. */
module Store {
  import opened Common

  type Data(==, !new)   // the whole database content
  type Body(==, !new)   // SQL text with its bound values
  type Query(==, !new)
  type Rows(==, !new)

  datatype Code =
    | Applied | Constraint | Policy | SequenceGap | Expired | IdentityConflict
    | SessionLimit | InvalidSql | Conflict

  /** What running a body inside a transaction yields before COMMIT.  `deferred` says that
      a deferred foreign key is still violated, which only COMMIT looks at. */
  datatype RunResult =
    | Ran(data: Data, changes: nat, deferred: bool)
    | RolledBack(refusal: Refusal)

  datatype Refusal = BrokeConstraint | BrokePolicy | BadSql

  function RefusalCode(r: Refusal): Code
  {
    match r
    case BrokeConstraint => Constraint
    case BrokePolicy => Policy
    case BadSql => InvalidSql
  }

  datatype Engine = Engine(
    run: (Data, Body) -> RunResult,
    ask: (Data, Query) -> Rows,
    sessionLimit: nat)

  /** What the recorded hash covers, besides the epoch. */
  datatype Content = Content(readVersion: nat, body: Body)

  datatype Identity = Identity(session: string, epoch: nat, sequence: nat)

  datatype Write = Write(id: Identity, content: Content)

  datatype Request = Submit(write: Write) | Retire(expected: nat) | Skip

  datatype Outcome = Outcome(code: Code, changes: nat, slot: nat)

  datatype Session = Session(last: nat, content: Content, outcome: Outcome)

  /** `slot` is the position of the last applied request. */
  datatype State = State(data: Data, version: nat, epoch: nat,
                         sessions: map<string, Session>, slot: nat)

  ghost predicate Initial(s: State)
  {
    s.version == 1 && s.epoch == 0 && s.sessions == map[] && s.slot == 0
  }

  // ------------------------------------------------------------------- one log position

  /** How a write is admitted: answered from what is known, recorded as a rejection without
      running, or run. */
  datatype Admission = Known(outcome: Outcome) | Rejected(outcome: Outcome) | Run

  function Lookup(e: Engine, s: State, w: Write): Admission
  {
    var here := s.slot + 1;
    var known := w.id.session in s.sessions;
    var last := if known then s.sessions[w.id.session].last else 0;
    if w.id.epoch != s.epoch then Known(Outcome(Expired, 0, here))
    else if known && w.id.sequence < last then Known(Outcome(Expired, 0, here))
    else if known && w.id.sequence == last then
      if w.content == s.sessions[w.id.session].content then Known(s.sessions[w.id.session].outcome)
      else Known(Outcome(IdentityConflict, 0, here))
    else if !known && e.sessionLimit <= |s.sessions| then Known(Outcome(SessionLimit, 0, here))
    else if w.id.sequence != last + 1 then Rejected(Outcome(SequenceGap, 0, here))
    else Run
  }

  /** Runs the body and commits it: the revision is compared first, a refusal or a deferred
      violation leaves the data alone. */
  function RunBody(e: Engine, s: State, c: Content): (Data, Outcome)
  {
    var here := s.slot + 1;
    if c.readVersion != 0 && c.readVersion != s.version then (s.data, Outcome(Conflict, 0, here))
    else match e.run(s.data, c.body)
      case RolledBack(refusal) => (s.data, Outcome(RefusalCode(refusal), 0, here))
      case Ran(data, changes, deferred) =>
        if deferred then (s.data, Outcome(Constraint, 0, here))
        else (data, Outcome(Applied, changes, here))
  }

  /** Stores the outcome; only a freshly applied request advances the revision. */
  function Recorded(s: State, data: Data, w: Write, outcome: Outcome): State
  {
    var here := s.slot + 1;
    State(data,
          if outcome.code == Applied && outcome.slot == here then here + 1 else s.version,
          s.epoch,
          s.sessions[w.id.session := Session(w.id.sequence, w.content, outcome)],
          here)
  }

  function ApplyWrite(e: Engine, s: State, w: Write): (State, Outcome)
  {
    match Lookup(e, s, w)
    case Known(outcome) => (s.(slot := s.slot + 1), outcome)
    case Rejected(outcome) => (Recorded(s, s.data, w, outcome), outcome)
    case Run =>
      var (data, outcome) := RunBody(e, s, w.content);
      (Recorded(s, data, w, outcome), outcome)
  }

  /** Advancing is idempotent from the next epoch and refused from any other. */
  function ApplyRetirement(s: State, expected: nat): (State, Outcome)
  {
    var here := s.slot + 1;
    if s.epoch == expected + 1 then
      (s.(version := here + 1, slot := here), Outcome(Applied, 0, here))
    else if s.epoch != expected then
      (s.(slot := here), Outcome(Conflict, 0, here))
    else
      (s.(version := here + 1, epoch := s.epoch + 1, sessions := map[], slot := here), Outcome(Applied, 0, here))
  }

  function Apply(e: Engine, s: State, r: Request): (State, Outcome)
  {
    match r
    case Submit(w) => ApplyWrite(e, s, w)
    case Retire(expected) => ApplyRetirement(s, expected)
    case Skip => (s.(slot := s.slot + 1), Outcome(Applied, 0, s.slot + 1))
  }

  // ------------------------------------------------------------- the position as a table

  /** The request leaves nothing behind but its place in the log. */
  ghost predicate Passes(s: State, t: State)
  {
    t == s.(slot := s.slot + 1)
  }

  /** The outcome goes on record under the write's session; of the rest only what is said. */
  ghost predicate Records(s: State, t: State, w: Write, o: Outcome, data: Data, version: nat)
  {
    && t.slot == s.slot + 1 && t.epoch == s.epoch && t.data == data && t.version == version
    && t.sessions == s.sessions[w.id.session := Session(w.id.sequence, w.content, o)]
  }

  /** A write, from what the store holds: the epoch first, then the session's row, then the room
      for a new session, then the number, then the revision, and the body last. */
  ghost predicate WriteTable(e: Engine, s: State, w: Write, t: State, o: Outcome)
  {
    var here := s.slot + 1;
    if w.id.epoch != s.epoch then Passes(s, t) && o == Outcome(Expired, 0, here)
    else if w.id.session !in s.sessions then
      if |s.sessions| >= e.sessionLimit then Passes(s, t) && o == Outcome(SessionLimit, 0, here)
      else if w.id.sequence == 1 then RunTable(e, s, w, t, o)
      else o == Outcome(SequenceGap, 0, here) && Records(s, t, w, o, s.data, s.version)
    else
      var row := s.sessions[w.id.session];
      if w.id.sequence < row.last then Passes(s, t) && o == Outcome(Expired, 0, here)
      else if w.id.sequence == row.last then
        Passes(s, t) && o == if w.content == row.content then row.outcome else Outcome(IdentityConflict, 0, here)
      else if w.id.sequence == row.last + 1 then RunTable(e, s, w, t, o)
      else o == Outcome(SequenceGap, 0, here) && Records(s, t, w, o, s.data, s.version)
  }

  /** A write whose turn it is: recorded whatever it comes to, and only a success moves data and
      revision. */
  ghost predicate RunTable(e: Engine, s: State, w: Write, t: State, o: Outcome)
  {
    var here, version := s.slot + 1, w.content.readVersion;
    var result := e.run(s.data, w.content.body);
    if version != 0 && version != s.version then
      o == Outcome(Conflict, 0, here) && Records(s, t, w, o, s.data, s.version)
    else if result.Ran? && !result.deferred then
      o == Outcome(Applied, result.changes, here) && Records(s, t, w, o, result.data, here + 1)
    else
      && Records(s, t, w, o, s.data, s.version) && o.changes == 0 && o.slot == here
      && (result.Ran? ==> o.code == Constraint)
      && (result == RolledBack(BrokeConstraint) ==> o.code == Constraint)
      && (result == RolledBack(BrokePolicy) ==> o.code == Policy)
      && (result == RolledBack(BadSql) ==> o.code == InvalidSql)
  }

  /** A retirement empties the session table and moves the epoch exactly if it expects the
      present one; said again right after, it is acknowledged once more. */
  ghost predicate RetireTable(s: State, expected: nat, t: State, o: Outcome)
  {
    var here := s.slot + 1;
    && t.slot == here && t.data == s.data && o.changes == 0 && o.slot == here
    && if expected == s.epoch then
         t.epoch == s.epoch + 1 && t.sessions == map[] && t.version == here + 1 && o.code == Applied
       else
         && t.epoch == s.epoch && t.sessions == s.sessions
         && (if expected + 1 == s.epoch then t.version == here + 1 && o.code == Applied
             else t.version == s.version && o.code == Conflict)
  }

  /** What any request does to any state. */
  lemma ApplyMeaning(e: Engine, s: State, r: Request)
    ensures var (t, o) := Apply(e, s, r);
            match r
            case Submit(w) => WriteTable(e, s, w, t, o)
            case Retire(expected) => RetireTable(s, expected, t, o)
            case Skip => Passes(s, t) && o == Outcome(Applied, 0, s.slot + 1)
  {
  }

  // -------------------------------------------------------------------------------- logs

  function After(e: Engine, s0: State, log: seq<Request>): State
  {
    if log == [] then s0
    else Apply(e, After(e, s0, log[..|log| - 1]), log[|log| - 1]).0
  }

  function At(e: Engine, s0: State, log: seq<Request>, i: nat): State
    requires i <= |log|
  {
    After(e, s0, log[..i])
  }

  function OutcomeAt(e: Engine, s0: State, log: seq<Request>, i: nat): Outcome
    requires i < |log|
  {
    Apply(e, At(e, s0, log, i), log[i]).1
  }

  lemma Step(e: Engine, s0: State, log: seq<Request>, i: nat)
    requires i < |log|
    ensures At(e, s0, log, i + 1) == Apply(e, At(e, s0, log, i), log[i]).0
  {
    var p := log[..i + 1];
    assert p[..|p| - 1] == log[..i];
  }

  lemma AtPrefix(e: Engine, s0: State, log: seq<Request>, more: seq<Request>, i: nat)
    requires i <= |log|
    ensures At(e, s0, log + more, i) == At(e, s0, log, i)
    ensures i < |log| ==> OutcomeAt(e, s0, log + more, i) == OutcomeAt(e, s0, log, i)
  {
    assert (log + more)[..i] == log[..i];
  }

  lemma AppendOne(e: Engine, s0: State, log: seq<Request>, r: Request)
    ensures After(e, s0, log + [r]) == Apply(e, After(e, s0, log), r).0
    ensures OutcomeAt(e, s0, log + [r], |log|) == Apply(e, After(e, s0, log), r).1
  {
    assert (log + [r])[..|log|] == log;
  }

  lemma AtEnd(e: Engine, s0: State, log: seq<Request>)
    ensures At(e, s0, log, |log|) == After(e, s0, log)
  {
    assert log[..|log|] == log;
  }

  /** Position `i` ran a write and changed the database. */
  ghost predicate Effective(e: Engine, s0: State, log: seq<Request>, i: nat)
  {
    && i < |log| && log[i].Submit?
    && Lookup(e, At(e, s0, log, i), log[i].write) == Run
    && OutcomeAt(e, s0, log, i).code == Applied
  }

  lemma {:induction false} SlotIsLength(e: Engine, s0: State, log: seq<Request>)
    requires Initial(s0)
    ensures After(e, s0, log).slot == |log|
  {
    if log != [] { SlotIsLength(e, s0, log[..|log| - 1]); }
  }

  lemma SlotAt(e: Engine, s0: State, log: seq<Request>, i: nat)
    requires Initial(s0) && i <= |log|
    ensures At(e, s0, log, i).slot == i
  {
    SlotIsLength(e, s0, log[..i]);
  }

  // ---------------------------------------------------------------------------- fencing

  /** No request of this identity runs any more. */
  ghost predicate Fenced(s: State, id: Identity)
  {
    id.epoch < s.epoch ||
    (id.epoch == s.epoch && id.session in s.sessions && id.sequence <= s.sessions[id.session].last)
  }

  lemma FencedStays(e: Engine, s: State, r: Request, id: Identity)
    requires Fenced(s, id)
    ensures Fenced(Apply(e, s, r).0, id)
  {
  }

  lemma {:induction false} FencedStaysAt(e: Engine, s0: State, log: seq<Request>, i: nat, j: nat, id: Identity)
    requires i <= j <= |log| && Fenced(At(e, s0, log, i), id)
    ensures Fenced(At(e, s0, log, j), id)
    decreases j - i
  {
    if i < j {
      Step(e, s0, log, i);
      FencedStays(e, At(e, s0, log, i), log[i], id);
      FencedStaysAt(e, s0, log, i + 1, j, id);
    }
  }

  /** Each (session, epoch, sequence) takes effect at most once, whoever sends what and
      however often. */
  lemma AtMostOnce(e: Engine, s0: State, log: seq<Request>, i: nat, j: nat)
    requires Effective(e, s0, log, i) && Effective(e, s0, log, j)
    requires log[i].write.id == log[j].write.id
    ensures i == j
  {
    var a, b := if i < j then i else j, if i < j then j else i;
    if a < b {
      Step(e, s0, log, a);
      FencedStaysAt(e, s0, log, a + 1, b, log[b].write.id);
    }
  }

  /** The identity has this content and this outcome on record. */
  ghost predicate OnRecord(s: State, w: Write, outcome: Outcome)
  {
    && w.id.epoch == s.epoch && w.id.session in s.sessions
    && s.sessions[w.id.session] == Session(w.id.sequence, w.content, outcome)
  }

  ghost predicate PastRecord(s: State, id: Identity)
  {
    id.epoch < s.epoch ||
    (id.epoch == s.epoch && id.session in s.sessions && id.sequence < s.sessions[id.session].last)
  }

  lemma RecordStays(e: Engine, s: State, r: Request, w: Write, outcome: Outcome)
    requires OnRecord(s, w, outcome) || PastRecord(s, w.id)
    ensures var t := Apply(e, s, r).0; OnRecord(t, w, outcome) || PastRecord(t, w.id)
  {
  }

  lemma {:induction false} RecordStaysAt(e: Engine, s0: State, log: seq<Request>, i: nat, j: nat, w: Write,
          outcome: Outcome)
    requires i <= j <= |log|
    requires OnRecord(At(e, s0, log, i), w, outcome) || PastRecord(At(e, s0, log, i), w.id)
    ensures OnRecord(At(e, s0, log, j), w, outcome) || PastRecord(At(e, s0, log, j), w.id)
    decreases j - i
  {
    if i < j {
      Step(e, s0, log, i);
      RecordStays(e, At(e, s0, log, i), log[i], w, outcome);
      RecordStaysAt(e, s0, log, i + 1, j, w, outcome);
    }
  }

  /** Codes that come from a recorded outcome, run or replayed. */
  predicate Conclusive(c: Code)
  {
    c != Expired && c != IdentityConflict && c != SessionLimit
  }

  /** One recorded outcome: once a request was conclusively answered, every later request of
      the same identity gets that very outcome, an identity conflict if its content
      differs, or Expired. */
  lemma OneRecordedOutcome(e: Engine, s0: State, log: seq<Request>, i: nat, j: nat)
    requires i < j < |log| && log[i].Submit? && log[j].Submit? && log[i].write.id == log[j].write.id
    requires Conclusive(OutcomeAt(e, s0, log, i).code)
    ensures var later := OutcomeAt(e, s0, log, j);
            || later.code == Expired
            || (log[j].write == log[i].write && later == OutcomeAt(e, s0, log, i))
            || (log[j].write != log[i].write && later.code == IdentityConflict)
  {
    var w, outcome := log[i].write, OutcomeAt(e, s0, log, i);
    Step(e, s0, log, i);
    assert OnRecord(At(e, s0, log, i + 1), w, outcome);
    RecordStaysAt(e, s0, log, i + 1, j, w, outcome);
  }

  /** A request of a retired epoch is answered Expired and changes nothing, at this and every
      later position. */
  lemma RetiredForGood(e: Engine, s0: State, log: seq<Request>, i: nat, j: nat)
    requires i <= j < |log| && log[j].Submit?
    requires log[j].write.id.epoch < At(e, s0, log, i).epoch
    ensures OutcomeAt(e, s0, log, j).code == Expired
    ensures At(e, s0, log, j + 1) == At(e, s0, log, j).(slot := At(e, s0, log, j).slot + 1)
  {
    EpochGrows(e, s0, log, i, j);
    Step(e, s0, log, j);
  }

  lemma {:induction false} EpochGrows(e: Engine, s0: State, log: seq<Request>, i: nat, j: nat)
    requires i <= j <= |log|
    ensures At(e, s0, log, i).epoch <= At(e, s0, log, j).epoch
    decreases j - i
  {
    if i < j {
      Step(e, s0, log, i);
      EpochGrows(e, s0, log, i + 1, j);
    }
  }

  /** A row either was there before, in the same epoch, or is what this request left. */
  lemma RowStep(e: Engine, s: State, r: Request, name: string)
    requires name in Apply(e, s, r).0.sessions
    ensures var (t, outcome) := Apply(e, s, r);
            var row := t.sessions[name];
            || (t.epoch == s.epoch && name in s.sessions && row == s.sessions[name])
            || (&& r == Submit(Write(Identity(name, t.epoch, row.last), row.content))
                && row.outcome == outcome && outcome.slot == s.slot + 1
                && (outcome.code == Applied ==> Lookup(e, s, r.write) == Run))
  {
  }

  ghost predicate Origin(e: Engine, s0: State, log: seq<Request>, i: nat, id: Identity, row: Session)
  {
    && 1 <= row.outcome.slot <= i <= |log|
    && log[row.outcome.slot - 1] == Submit(Write(id, row.content))
    && OutcomeAt(e, s0, log, row.outcome.slot - 1) == row.outcome
    && (row.outcome.code == Applied ==> Effective(e, s0, log, row.outcome.slot - 1))
  }

  /** A recorded outcome was given out by the request that it is the outcome of: the write
      at the outcome's own position, effective there if it is Applied. */
  lemma {:induction false} RowOrigin(e: Engine, s0: State, log: seq<Request>, i: nat, name: string)
    requires Initial(s0) && i <= |log| && name in At(e, s0, log, i).sessions
    ensures var row := At(e, s0, log, i).sessions[name];
            Origin(e, s0, log, i, Identity(name, At(e, s0, log, i).epoch, row.last), row)
    decreases i
  {
    if i > 0 {
      Step(e, s0, log, i - 1);
      SlotAt(e, s0, log, i - 1);
      RowStep(e, At(e, s0, log, i - 1), log[i - 1], name);
      var before := At(e, s0, log, i - 1);
      if name in before.sessions && before.sessions[name] == At(e, s0, log, i).sessions[name]
         && before.epoch == At(e, s0, log, i).epoch {
        RowOrigin(e, s0, log, i - 1, name);
      }
    }
  }

  /** An Applied answer to a write stands for exactly one effect: the effective position of
      that very write which the outcome names. */
  lemma AppliedMeansEffect(e: Engine, s0: State, log: seq<Request>, i: nat) returns (k: nat)
    requires Initial(s0) && i < |log| && log[i].Submit? && OutcomeAt(e, s0, log, i).code == Applied
    ensures k <= i && Effective(e, s0, log, k) && log[k] == log[i]
    ensures OutcomeAt(e, s0, log, k) == OutcomeAt(e, s0, log, i)
  {
    var w, s := log[i].write, At(e, s0, log, i);
    if Lookup(e, s, w) == Run {
      k := i;
    } else {
      RowOrigin(e, s0, log, i, w.id.session);
      k := s.sessions[w.id.session].outcome.slot - 1;
    }
  }

  /** A conclusive answer other than Applied stands for no effect of that identity, before or
      after, whatever contents the log carries under it. */
  lemma RejectedMeansNoEffect(e: Engine, s0: State, log: seq<Request>, i: nat, k: nat)
    requires i < |log| && log[i].Submit? && Conclusive(OutcomeAt(e, s0, log, i).code)
    requires OutcomeAt(e, s0, log, i).code != Applied
    requires k < |log| && log[k].Submit? && log[k].write.id == log[i].write.id
    ensures !Effective(e, s0, log, k)
  {
    if k < i && Effective(e, s0, log, k) {
      OneRecordedOutcome(e, s0, log, k, i);
    } else if i < k {
      Step(e, s0, log, i);
      FencedStaysAt(e, s0, log, i + 1, k, log[k].write.id);
    }
  }

  /** However often the retirement of an epoch is repeated, it advances the epoch at most
      once; it is answered Applied exactly when the epoch is then the next one. */
  lemma RetiresOnce(e: Engine, s0: State, log: seq<Request>, i: nat, j: nat)
    requires i < j < |log| && log[i].Retire? && log[j] == log[i]
    requires At(e, s0, log, i + 1).epoch != At(e, s0, log, i).epoch
    ensures At(e, s0, log, j + 1).epoch == At(e, s0, log, j).epoch
    ensures OutcomeAt(e, s0, log, j).code == Applied <==> At(e, s0, log, j + 1).epoch == log[i].expected + 1
  {
    Step(e, s0, log, i);
    Step(e, s0, log, j);
    EpochGrows(e, s0, log, i + 1, j);
  }

  // -------------------------------------------------------------------------- revisions

  lemma {:induction false} VersionBound(e: Engine, s0: State, log: seq<Request>, i: nat)
    requires Initial(s0) && i <= |log|
    ensures 1 <= At(e, s0, log, i).version <= i + 1
    decreases i
  {
    if i > 0 {
      Step(e, s0, log, i - 1);
      SlotAt(e, s0, log, i - 1);
      VersionBound(e, s0, log, i - 1);
    }
  }

  /** The revision never decreases, and while it stays the same so does the data. */
  lemma {:induction false} VersionIdentifiesData(e: Engine, s0: State, log: seq<Request>, i: nat, j: nat)
    requires Initial(s0) && i <= j <= |log|
    ensures At(e, s0, log, i).version <= At(e, s0, log, j).version
    ensures At(e, s0, log, i).version == At(e, s0, log, j).version ==>
              At(e, s0, log, i).data == At(e, s0, log, j).data
    decreases j - i
  {
    if i < j {
      Step(e, s0, log, i);
      SlotAt(e, s0, log, i);
      VersionBound(e, s0, log, i);
      VersionIdentifiesData(e, s0, log, i + 1, j);
      FreshOutcomes(e, At(e, s0, log, i), log[i]);
    }
  }

  /** One request either keeps data and revision, or moves the revision past every earlier
      one. */
  lemma FreshOutcomes(e: Engine, s: State, r: Request)
    ensures var t := Apply(e, s, r).0;
            (t.data == s.data && t.version == s.version) || t.version == s.slot + 2
  {
  }

  /** The revision moves where a write takes effect or a retirement is acknowledged, and nowhere
      else: not at rejections, repeats and barriers.  Where it moves it names the next position. */
  lemma RevisionMoves(e: Engine, s0: State, log: seq<Request>, i: nat)
    requires Initial(s0) && i < |log|
    ensures At(e, s0, log, i + 1).version != At(e, s0, log, i).version <==>
            Effective(e, s0, log, i) || (log[i].Retire? && OutcomeAt(e, s0, log, i).code == Applied)
    ensures At(e, s0, log, i + 1).version in {At(e, s0, log, i).version, i + 2}
  {
    Step(e, s0, log, i);
    SlotAt(e, s0, log, i);
    VersionBound(e, s0, log, i);
    if log[i].Submit? && Lookup(e, At(e, s0, log, i), log[i].write).Known? {
      KnownKeepsVersion(e, At(e, s0, log, i), log[i].write);
    }
  }

  lemma KnownKeepsVersion(e: Engine, s: State, w: Write)
    requires Lookup(e, s, w).Known?
    ensures Apply(e, s, Submit(w)).0.version == s.version
  {
  }

  /** The data changes at effective positions only, and there to what the body makes of it. */
  lemma EffectOf(e: Engine, s0: State, log: seq<Request>, i: nat)
    requires i < |log|
    ensures !Effective(e, s0, log, i) ==> At(e, s0, log, i + 1).data == At(e, s0, log, i).data
    ensures Effective(e, s0, log, i) ==>
              && var r := e.run(At(e, s0, log, i).data, log[i].write.content.body);
              && r.Ran? && !r.deferred && At(e, s0, log, i + 1).data == r.data
              && (log[i].write.content.readVersion != 0 ==>
                    log[i].write.content.readVersion == At(e, s0, log, i).version)
  {
    Step(e, s0, log, i);
  }
}
