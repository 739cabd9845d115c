/** The campaign: batches are checked one after the other, each from the state that the
    previous witness ended in, with single anchor reads between and after them. */
module Campaign {
  import opened Common
  import opened SerialHistory
  import opened HistorySearch

  datatype Segment = Batch(history: seq<Op>) | Anchor(read: Op)

  datatype Verdict = Passed | NoSerialExplanation | NoProgress | AnchorMismatch

  /** An anchor is a plain read that returned. */
  ghost predicate WellFormed(segments: seq<Segment>)
  {
    forall s | s in segments :: s.Anchor? ==> s.read.kind == Read && s.read.status == Ok
  }

  function Operations(s: Segment): seq<Op>
  {
    match s
    case Batch(history) => Completed(history)
    case Anchor(read) => [read]
  }

  /** Every completed operation of the run. */
  function WholeRun(segments: seq<Segment>): seq<Op>
  {
    if segments == [] then [] else Operations(segments[0]) + WholeRun(segments[1..])
  }

  ghost predicate Progress(history: seq<Op>)
  {
    exists op :: op in history && op.kind == Transaction && op.status == Ok
  }

  /** All operations of `a` end before any of `b` starts. */
  ghost predicate Before(a: seq<Op>, b: seq<Op>)
  {
    forall x, y | x in a && y in b :: x.end < y.start
  }

  /** No operation of `b` ends before one of `a` starts. */
  ghost predicate NotAfter(a: seq<Op>, b: seq<Op>)
  {
    forall x, y | x in a && y in b :: !(y.end < x.start)
  }

  ghost predicate Separated(segments: seq<Segment>)
  {
    segments == [] ||
    (Before(Operations(segments[0]), WholeRun(segments[1..])) && Separated(segments[1..]))
  }

  ghost predicate InOrder(segments: seq<Segment>)
  {
    segments == [] ||
    (NotAfter(Operations(segments[0]), WholeRun(segments[1..])) && InOrder(segments[1..]))
  }

  /** The state a serializable batch ends in; every legal order ends in it. */
  ghost function EndState(state: State, history: seq<Op>): State
    requires Serializable(state, history)
  {
    var order :| SerialOrder(Sort(state), Completed(history), order);
    Replay(Sort(state), order).value
  }

  lemma EndStateOf(state: State, history: seq<Op>, order: seq<Op>)
    requires SerialOrder(Sort(state), Completed(history), order)
    ensures Serializable(state, history) && Replay(Sort(state), order) == Some(EndState(state, history))
  {
    var o :| SerialOrder(Sort(state), Completed(history), o) &&
            EndState(state, history) == Replay(Sort(state), o).value;
    Confluence(Sort(state), order, o);
  }

  /** Each segment passes its own check from the state the one before it ended in. */
  ghost predicate Accepts(state: State, segments: seq<Segment>)
    decreases segments
  {
    segments == [] ||
    match segments[0]
    case Anchor(read) => read.observed == state && Accepts(state, segments[1..])
    case Batch(history) =>
      Progress(history) && Serializable(state, history) && Accepts(EndState(state, history), segments[1..])
  }

  /** The verdict of the first segment that fails, and the state at that point. */
  ghost function Outcome(state: State, segments: seq<Segment>): (Verdict, State)
    decreases segments
  {
    if segments == [] then (Passed, state)
    else match segments[0]
      case Anchor(read) =>
        if read.observed != state then (AnchorMismatch, state) else Outcome(state, segments[1..])
      case Batch(history) =>
        if !Serializable(state, history) then (NoSerialExplanation, state)
        else if !Progress(history) then (NoProgress, EndState(state, history))
        else Outcome(EndState(state, history), segments[1..])
  }

  lemma {:induction false} OutcomePassed(state: State, segments: seq<Segment>)
    ensures Outcome(state, segments).0 == Passed <==> Accepts(state, segments)
    decreases segments
  {
    if segments != [] {
      OutcomePassed(state, segments[1..]);
      if segments[0].Batch? && Serializable(state, segments[0].history) {
        OutcomePassed(EndState(state, segments[0].history), segments[1..]);
      }
    }
  }

  /** Why a campaign fails: at some segment, from a state that the segments before it pass into,
      an anchor saw something else, a batch has no explanation, or it has one and committed
      nothing. */
  ghost predicate Fails(state: State, segment: Segment, verdict: Verdict, end: State)
  {
    match verdict
    case Passed => false
    case AnchorMismatch => segment.Anchor? && segment.read.observed != state && end == state
    case NoSerialExplanation => segment.Batch? && !Explainable(state, segment.history) && end == state
    case NoProgress =>
      && segment.Batch? && (forall op | op in segment.history :: op.kind != Transaction || op.status != Ok)
      && EndsIn(state, segment.history, end)
  }

  /** Every explanation of the history ends in this state, and there is one. */
  ghost predicate EndsIn(state: State, history: seq<Op>, end: State)
  {
    && Explainable(state, history)
    && forall order, states | Explanation(state, history, order, states) :: states[|order|] == end
  }

  lemma EndStateMeaning(state: State, history: seq<Op>)
    requires Serializable(state, history)
    ensures EndsIn(state, history, EndState(state, history))
  {
    SerializableMeaning(state, history);
    forall order, states | Explanation(state, history, order, states)
      ensures states[|order|] == EndState(state, history)
    {
      ExplanationMeaning(state, history, order, states[|order|]);
      EndStateOf(state, history, order);
    }
  }

  /** Where a segment that passes leads, if it passes. */
  ghost function Passing(state: State, s: Segment): Option<State>
  {
    match s
    case Anchor(read) => if read.observed == state then Some(state) else None
    case Batch(history) =>
      if Serializable(state, history) && Progress(history) then Some(EndState(state, history)) else None
  }

  lemma HeadPasses(state: State, segments: seq<Segment>)
    requires segments != [] && Passing(state, segments[0]).Some?
    ensures Outcome(state, segments) == Outcome(Passing(state, segments[0]).value, segments[1..])
  {
  }

  lemma HeadFails(state: State, segments: seq<Segment>)
    requires segments != [] && Passing(state, segments[0]).None?
    ensures Outcome(state, segments).0 != Passed
    ensures Fails(state, segments[0], Outcome(state, segments).0, Outcome(state, segments).1)
  {
    if segments[0].Batch? {
      var history := segments[0].history;
      SerializableMeaning(state, history);
      if Serializable(state, history) { EndStateMeaning(state, history); }
    }
  }

  /** The verdict names the first segment that fails, and why; a pass has none. */
  lemma {:induction false} OutcomeMeaning(state: State, segments: seq<Segment>) returns (n: nat, at: State)
    ensures n <= |segments| && Outcome(state, segments[..n]) == (Passed, at)
    ensures n == |segments| <==> Outcome(state, segments).0 == Passed
    ensures n == |segments| ==> Outcome(state, segments) == (Passed, at)
    ensures n < |segments| ==> Fails(at, segments[n], Outcome(state, segments).0, Outcome(state, segments).1)
    decreases segments
  {
    if segments == [] {
      return 0, state;
    }
    if Passing(state, segments[0]).None? {
      HeadFails(state, segments);
      return 0, state;
    }
    HeadPasses(state, segments);
    n, at := OutcomeMeaning(Passing(state, segments[0]).value, segments[1..]);
    assert segments[..n + 1][1..] == segments[1..][..n];
    HeadPasses(state, segments[..n + 1]);
    n := n + 1;
  }

  method MadeProgress(history: seq<Op>) returns (b: bool)
    ensures b <==> exists op :: op in history && op.kind == Transaction && op.status == Ok
    ensures b <==> Progress(history)
  {
    var i := 0;
    while i < |history|
      invariant i <= |history|
      invariant forall j | 0 <= j < i :: !(history[j].kind == Transaction && history[j].status == Ok)
    {
      if history[i].kind == Transaction && history[i].status == Ok {
        return true;
      }
      i := i + 1;
    }
    return false;
  }

  /** The state that the next batch starts from, if this one has an explanation. */
  method EndOf(state: State, history: seq<Op>) returns (end: Option<State>)
    ensures end.Some? <==> Serializable(state, history)
    ensures end.Some? ==> end.value == EndState(state, history)
  {
    var found, order := FindSerialOrder(state, history);
    if found.None? {
      return None;
    }
    EndStateOf(state, history, order);
    end := Some(found.value.state);
  }

  method Run(segments: seq<Segment>) returns (verdict: Verdict, state: State)
    ensures (verdict, state) == Outcome([], segments)
    ensures verdict == Passed <==> Accepts([], segments)
  {
    OutcomePassed([], segments);
    state := [];
    var i := 0;
    while i < |segments|
      invariant i <= |segments|
      invariant Outcome([], segments) == Outcome(state, segments[i..])
    {
      assert segments[i..][0] == segments[i] && segments[i..][1..] == segments[i + 1..];
      match segments[i] {
        case Batch(history) =>
          var found := EndOf(state, history);
          if found.None? {
            return NoSerialExplanation, state;
          }
          state := found.value;
          var progress := MadeProgress(history);
          if !progress {
            return NoProgress, state;
          }
        case Anchor(read) =>
          if read.observed != state {
            return AnchorMismatch, state;
          }
      }
      i := i + 1;
    }
    verdict := Passed;
  }

  // ------------------------------------------------------------------ what passing means

  lemma ReplayKeepsSorted(state: State, order: seq<Op>)
    requires NonDecreasing(state) && Replay(state, order).Some?
    ensures NonDecreasing(Replay(state, order).value)
  {
    FinalState(state, order, Replay(state, order).value);
  }

  lemma SerialConcat(state: State, xs: seq<Op>, ys: seq<Op>, a: seq<Op>, b: seq<Op>)
    requires SerialOrder(state, xs, a) && SerialOrder(Replay(state, a).value, ys, b)
    requires NotAfter(xs, ys)
    ensures SerialOrder(state, xs + ys, a + b)
  {
    ReplayConcat(state, a, b);
    var ab := a + b;
    forall i, j | 0 <= i <= j < |ab| ensures !(ab[j].end < ab[i].start) {
      if i < |a| && |a| <= j {
        assert ab[i] == a[i] && a[i] in multiset(a) && a[i] in multiset(xs);
        assert ab[j] == b[j - |a|] && b[j - |a|] in multiset(b) && b[j - |a|] in multiset(ys);
      } else if |a| <= i {
        assert ab[i] == b[i - |a|] && ab[j] == b[j - |a|];
      }
    }
  }

  /** If every check passes, the witnesses one after the other, with the anchors between
      them, are a legal serial order of the whole run. */
  lemma {:induction false} PassingSerializes(state: State, segments: seq<Segment>) returns (order: seq<Op>)
    requires NonDecreasing(state) && WellFormed(segments) && InOrder(segments)
    requires forall s | s in segments :: s.Anchor? ==> s.read.start <= s.read.end
    requires Accepts(state, segments)
    ensures SerialOrder(state, WholeRun(segments), order)
    decreases segments
  {
    if segments == [] {
      return [];
    }
    var head: seq<Op>;
    match segments[0] {
      case Anchor(read) =>
        head := [read];
        assert segments[0] in segments;
        assert Replay(state, head) == Some(state) by { assert head[1..] == []; }
      case Batch(history) =>
        SortOfSorted(state);
        head :| SerialOrder(Sort(state), Completed(history), head);
        EndStateOf(state, history, head);
        ReplayKeepsSorted(state, head);
    }
    var rest := PassingSerializes(Replay(state, head).value, segments[1..]);
    SerialConcat(state, Operations(segments[0]), WholeRun(segments[1..]), head, rest);
    order := head + rest;
  }

  /** In a legal order nothing of the earlier group follows anything of the later one. */
  lemma LaterStaysLater(order: seq<Op>, i: nat, j: nat, xs: seq<Op>, ys: seq<Op>)
    requires Respects(order) && Before(xs, ys) && i <= j < |order| && order[i] in ys
    ensures order[j] !in xs
  {
    assert !(order[j].end < order[i].start);
  }

  /** A legal order cannot interleave two strictly separated groups. */
  lemma {:induction false} SplitPoint(order: seq<Op>, xs: seq<Op>, ys: seq<Op>) returns (m: nat)
    requires Respects(order) && Before(xs, ys)
    requires forall x | x in order :: x in xs || x in ys
    ensures m <= |order|
    ensures forall i | 0 <= i < m :: order[i] in xs
    ensures forall i | m <= i < |order| :: order[i] in ys
  {
    if order == [] {
      return 0;
    }
    var last := |order| - 1;
    var front := order[..last];
    m := SplitPoint(front, xs, ys);
    assert forall i | 0 <= i < last :: front[i] == order[i];
    if m < last {
      LaterStaysLater(order, m, last, xs, ys);
    } else if order[last] !in ys {
      m := last + 1;
    }
  }

  /** Bags with disjoint supports split in one way. */
  lemma SameParts(a: seq<Op>, b: seq<Op>, xs: seq<Op>, ys: seq<Op>)
    requires multiset(a) + multiset(b) == multiset(xs) + multiset(ys)
    requires forall x | x in a :: x in xs
    requires forall x | x in b :: x in ys
    requires forall x | x in xs :: x !in ys
    ensures multiset(a) == multiset(xs) && multiset(b) == multiset(ys)
  {
    forall x ensures multiset(a)[x] == multiset(xs)[x] {
      assert (multiset(a) + multiset(b))[x] == (multiset(xs) + multiset(ys))[x];
      assert x in a <==> x in multiset(a);
      assert x in b <==> x in multiset(b);
      assert x in xs <==> x in multiset(xs);
      assert x in ys <==> x in multiset(ys);
    }
    assert multiset(b) == multiset(a) + multiset(b) - multiset(a);
    assert multiset(ys) == multiset(xs) + multiset(ys) - multiset(xs);
  }

  lemma SplitGroups(order: seq<Op>, xs: seq<Op>, ys: seq<Op>) returns (m: nat)
    requires multiset(order) == multiset(xs + ys) && Respects(order) && Before(xs, ys)
    ensures m <= |order| && multiset(order[..m]) == multiset(xs) && multiset(order[m..]) == multiset(ys)
  {
    forall x | x in order ensures x in xs || x in ys {
      assert x in multiset(order) && x in multiset(xs + ys);
    }
    m := SplitPoint(order, xs, ys);
    assert order == order[..m] + order[m..];
    forall x | x in xs ensures x !in ys {
      Disjoint(order, xs, ys, x);
    }
    SameParts(order[..m], order[m..], xs, ys);
  }

  /** No operation of a legal order is in both of two separated groups. */
  lemma Disjoint(order: seq<Op>, xs: seq<Op>, ys: seq<Op>, x: Op)
    requires multiset(order) == multiset(xs + ys) && Respects(order) && Before(xs, ys)
    ensures x !in xs || x !in ys
  {
    if x in xs {
      assert x in multiset(xs + ys) && x in multiset(order);
      var i :| 0 <= i < |order| && order[i] == x;
      assert !(order[i].end < order[i].start);
    }
  }

  lemma FirstPasses(state: State, segment: Segment, head: seq<Op>)
    requires NonDecreasing(state) && SerialOrder(state, Operations(segment), head)
    requires segment.Anchor? ==> segment.read.kind == Read
    ensures segment.Anchor? ==> segment.read.observed == state && Replay(state, head) == Some(state)
    ensures segment.Batch? ==>
              && Serializable(state, segment.history)
              && Replay(state, head) == Some(EndState(state, segment.history))
  {
    match segment {
      case Anchor(read) => AnchorAlone(state, read, head);
      case Batch(history) =>
        SortOfSorted(state);
        EndStateOf(state, history, head);
    }
  }

  /** A legal order of two strictly separated groups is a legal order of the first followed
      by a legal order of the second from where the first ended. */
  lemma SplitSerial(state: State, xs: seq<Op>, ys: seq<Op>, order: seq<Op>) returns (head: seq<Op>, rest: seq<Op>)
    requires Before(xs, ys) && SerialOrder(state, xs + ys, order)
    ensures SerialOrder(state, xs, head)
    ensures SerialOrder(Replay(state, head).value, ys, rest)
  {
    var m := SplitGroups(order, xs, ys);
    head, rest := order[..m], order[m..];
    assert order == head + rest;
    ReplayConcat(state, head, rest);
    RespectsPart(order, 0, m);
    RespectsPart(order, m, |order|);
  }

  /** A whole run that is serializable, with strictly separated segments and progress in
      every batch, passes every check. */
  lemma {:induction false} SerializablePasses(state: State, segments: seq<Segment>, order: seq<Op>)
    requires NonDecreasing(state) && WellFormed(segments) && Separated(segments)
    requires ProgressEverywhere(segments)
    requires SerialOrder(state, WholeRun(segments), order)
    ensures Accepts(state, segments)
    decreases segments
  {
    if segments != [] {
      var head, rest := SplitSerial(state, Operations(segments[0]), WholeRun(segments[1..]), order);
      assert segments[0] in segments;
      FirstPasses(state, segments[0], head);
      ReplayKeepsSorted(state, head);
      SerializablePasses(Replay(state, head).value, segments[1..], rest);
    }
  }

  lemma RespectsPart(order: seq<Op>, lo: nat, hi: nat)
    requires Respects(order) && lo <= hi <= |order|
    ensures Respects(order[lo..hi])
  {
  }

  lemma AnchorAlone(state: State, read: Op, head: seq<Op>)
    requires multiset(head) == multiset([read]) && read.kind == Read && Replay(state, head).Some?
    ensures read.observed == state && Replay(state, head) == Some(state)
  {
    var p := MatchHead([read], head);
    EmptyMultiset(Without(head, p));
    assert |head| == 1;
    assert head == [read] && head[1..] == [];
  }

  lemma {:induction false} SeparatedIsInOrder(segments: seq<Segment>)
    requires Separated(segments)
    requires forall op | op in WholeRun(segments) :: op.start <= op.end
    ensures InOrder(segments)
  {
    if segments != [] {
      SeparatedIsInOrder(segments[1..]);
    }
  }

  ghost predicate WholeRunSerializable(segments: seq<Segment>)
  {
    exists order :: SerialOrder([], WholeRun(segments), order)
  }

  ghost predicate ProgressEverywhere(segments: seq<Segment>)
  {
    forall s | s in segments :: s.Batch? ==> Progress(s.history)
  }

  /** The chained campaign is exact: on a run whose segments are strictly separated in time
      it accepts if and only if the whole run has one legal serial order and every batch
      made progress. */
  lemma ChainingIsExact(segments: seq<Segment>)
    requires WellFormed(segments) && Separated(segments)
    requires forall op | op in WholeRun(segments) :: op.start <= op.end
    ensures Accepts([], segments) <==> WholeRunSerializable(segments) && ProgressEverywhere(segments)
  {
    if Accepts([], segments) {
      SeparatedIsInOrder(segments);
      AnchorsAreTimed(segments);
      var order := PassingSerializes([], segments);
      AcceptedProgress([], segments);
    }
    if WholeRunSerializable(segments) && ProgressEverywhere(segments) {
      var order :| SerialOrder([], WholeRun(segments), order);
      SerializablePasses([], segments, order);
    }
  }

  lemma {:induction false} AcceptedProgress(state: State, segments: seq<Segment>)
    requires Accepts(state, segments)
    ensures ProgressEverywhere(segments)
    decreases segments
  {
    if segments != [] {
      match segments[0] {
        case Anchor(_) => AcceptedProgress(state, segments[1..]);
        case Batch(history) =>
          AcceptedProgress(EndState(state, history), segments[1..]);
      }
      forall s | s in segments ensures s == segments[0] || s in segments[1..] { }
    }
  }

  lemma {:induction false} AnchorsAreTimed(segments: seq<Segment>)
    requires forall op | op in WholeRun(segments) :: op.start <= op.end
    ensures forall s | s in segments :: s.Anchor? ==> s.read.start <= s.read.end
  {
    if segments != [] {
      AnchorsAreTimed(segments[1..]);
      if segments[0].Anchor? { assert segments[0].read in Operations(segments[0]); }
      forall s | s in segments ensures s == segments[0] || s in segments[1..] { }
    }
  }
}
