/** The serializability checker: a depth-first search for a serial order of the
    completed operations of one history, memoised on (mask, state). */
module SerialHistory {
  import opened Common
  import opened Bitmask

  datatype Status = Ok | SerializationAbort

  datatype Kind = Read | ReadOnlyTransaction | Transaction

  /** One recorded operation.  `key` is read for a Transaction only, `after` for the two
      transaction kinds only. */
  datatype Op = Op(id: int, start: int, end: int, status: Status, kind: Kind,
                   key: int, observed: seq<int>, after: seq<int>)

  type State = seq<int>

  datatype Witness = Witness(state: State, order: seq<int>)

  // ---------------------------------------------------------------- what is searched for

  /** `sorted(set(state) ^ {key})` */
  function Toggle(state: State, key: int): State
  {
    var s := Elements(state);
    SortedSet(if key in s then s - {key} else s + {key})
  }

  /** What the history says about running `op` on `state`. */
  function Step(op: Op, state: State): Option<State>
  {
    if op.observed != state then None
    else match op.kind
      case Read => Some(state)
      case ReadOnlyTransaction => if op.after == state then Some(state) else None
      case Transaction => if op.after == Toggle(state, op.key) then Some(op.after) else None
  }

  function Replay(state: State, order: seq<Op>): Option<State>
    decreases order
  {
    if order == [] then Some(state)
    else match Step(order[0], state)
      case None => None
      case Some(next) => Replay(next, order[1..])
  }

  /** No operation stands before one that ended before it started. */
  ghost predicate Respects(order: seq<Op>)
  {
    forall a, b | 0 <= a <= b < |order| :: !(order[b].end < order[a].start)
  }

  /** `order` is a legal serial order of the operations `ops` from `state`. */
  ghost predicate SerialOrder(state: State, ops: seq<Op>, order: seq<Op>)
  {
    multiset(order) == multiset(ops) && Respects(order) && Replay(state, order).Some?
  }

  function Ids(order: seq<Op>): (r: seq<int>)
    ensures |r| == |order| && forall k | 0 <= k < |r| :: r[k] == order[k].id
  {
    if order == [] then [] else [order[0].id] + Ids(order[1..])
  }

  function Completed(history: seq<Op>): seq<Op>
  {
    if history == [] then []
    else (if history[0].status == Ok then [history[0]] else []) + Completed(history[1..])
  }

  /** Every completed operation of the history as often as it is there, and no other. */
  ghost predicate CompletedOf(order: seq<Op>, history: seq<Op>)
  {
    forall op: Op :: multiset(order)[op] == if op.status == Ok then multiset(history)[op] else 0
  }

  lemma {:induction false} CompletedMeaning(history: seq<Op>)
    ensures CompletedOf(Completed(history), history)
  {
    if history != [] {
      CompletedMeaning(history[1..]);
      assert history == [history[0]] + history[1..];
      forall op: Op
        ensures multiset(Completed(history))[op] == if op.status == Ok then multiset(history)[op] else 0
      {
        assert multiset(history)[op] == multiset([history[0]])[op] + multiset(history[1..])[op];
      }
    }
  }

  lemma SameCompleted(order: seq<Op>, history: seq<Op>)
    ensures multiset(order) == multiset(Completed(history)) <==> CompletedOf(order, history)
  {
    CompletedMeaning(history);
    if CompletedOf(order, history) {
      forall op: Op ensures multiset(order)[op] == multiset(Completed(history))[op] {
      }
    }
  }

  /** Exactly the membership of `key` differs; the result is in ascending order. */
  ghost predicate Switched(before: State, after: State, key: int)
  {
    Ascending(after) && forall x: int :: x in after <==> ((x in before) != (x == key))
  }

  /** An operation observed `before` and left `after`. */
  ghost predicate ExplainedStep(op: Op, before: State, after: State)
  {
    && op.observed == before
    && (op.kind == Transaction ==> Switched(before, after, op.key))
    && (op.kind != Transaction ==> after == before)
    && (op.kind != Read ==> op.after == after)
  }

  /** Replay in declarative terms: there are states between the operations, and each
      operation is explained by the states on its two sides. */
  ghost predicate Explains(state: State, order: seq<Op>, states: seq<State>, final: State)
  {
    && |states| == |order| + 1 && states[0] == state && states[|order|] == final
    && forall k | 0 <= k < |order| :: ExplainedStep(order[k], states[k], states[k + 1])
  }

  lemma ToggleMeaning(state: State, key: int, next: State)
    ensures next == Toggle(state, key) <==> Switched(state, next, key)
  {
    var t := Toggle(state, key);
    forall x: int ensures x in t <==> ((x in state) != (x == key)) {
      assert x in t <==> x in Elements(t);
    }
    if Switched(state, next, key) {
      assert Elements(next) == Elements(t) by {
        forall x ensures x in Elements(next) <==> x in Elements(t) {
          assert x in next <==> x in t;
        }
      }
      AscendingIsUnique(next, t);
    }
  }

  lemma StepMeaning(op: Op, state: State, next: State)
    ensures Step(op, state) == Some(next) <==> ExplainedStep(op, state, next)
  {
    ToggleMeaning(state, op.key, next);
  }

  lemma {:induction false} ReplayExplained(state: State, order: seq<Op>) returns (states: seq<State>)
    requires Replay(state, order).Some?
    ensures Explains(state, order, states, Replay(state, order).value)
    decreases order
  {
    if order == [] {
      states := [state];
    } else {
      var next := Step(order[0], state).value;
      StepMeaning(order[0], state, next);
      var rest := ReplayExplained(next, order[1..]);
      states := [state] + rest;
      forall k | 0 <= k < |order| ensures ExplainedStep(order[k], states[k], states[k + 1]) {
        if k > 0 { assert order[k] == order[1..][k - 1]; }
      }
    }
  }

  lemma {:induction false} ExplainedReplays(state: State, order: seq<Op>, states: seq<State>, final: State)
    requires Explains(state, order, states, final)
    ensures Replay(state, order) == Some(final)
    decreases order
  {
    if order != [] {
      StepMeaning(order[0], state, states[1]);
      var tail, later := order[1..], states[1..];
      forall k | 0 <= k < |tail| ensures ExplainedStep(tail[k], later[k], later[k + 1]) {
        assert tail[k] == order[k + 1];
      }
      ExplainedReplays(states[1], tail, later, final);
    }
  }

  /** Replaying succeeds exactly when the history explains itself state by state. */
  lemma ReplayMeaning(state: State, order: seq<Op>, final: State)
    ensures Replay(state, order) == Some(final) <==> exists states :: Explains(state, order, states, final)
  {
    if Replay(state, order) == Some(final) {
      var states := ReplayExplained(state, order);
      assert Explains(state, order, states, final);
    }
    forall states | Explains(state, order, states, final)
      ensures Replay(state, order) == Some(final)
    {
      ExplainedReplays(state, order, states, final);
    }
  }

  /** The history, said without the checker: its completed operations in some order that
      respects real time, from the initial keys in order through states that explain what each
      operation saw and left. */
  ghost predicate Explanation(initial: seq<int>, history: seq<Op>, order: seq<Op>, states: seq<State>)
  {
    && CompletedOf(order, history) && Respects(order)
    && |states| == |order| + 1
    && NonDecreasing(states[0]) && multiset(states[0]) == multiset(initial)
    && forall k | 0 <= k < |order| :: ExplainedStep(order[k], states[k], states[k + 1])
  }

  lemma ExplanationMeaning(initial: seq<int>, history: seq<Op>, order: seq<Op>, final: State)
    ensures SerialOrder(Sort(initial), Completed(history), order) && Replay(Sort(initial), order) == Some(final)
       <==> exists states :: Explanation(initial, history, order, states) && states[|order|] == final
  {
    var start := Sort(initial);
    SameCompleted(order, history);
    ReplayMeaning(start, order, final);
    SortMeaning(initial, start);
    if Replay(start, order) == Some(final) {
      var states :| Explains(start, order, states, final);
      assert SerialOrder(start, Completed(history), order) ==>
          Explanation(initial, history, order, states) && states[|order|] == final;
    }
    forall states | Explanation(initial, history, order, states) && states[|order|] == final
      ensures Replay(start, order) == Some(final)
    {
      SortMeaning(initial, states[0]);
      assert Explains(start, order, states, final);
    }
  }

  lemma IdsCons(order: seq<int>, op: Op, tail: seq<Op>)
    ensures order + [op.id] + Ids(tail) == order + Ids([op] + tail)
  {
    assert ([op] + tail)[1..] == tail;
  }

  lemma ReplayCons(op: Op, tail: seq<Op>, state: State)
    ensures Step(op, state).Some? ==> Replay(state, [op] + tail) == Replay(Step(op, state).value, tail)
  {
    assert ([op] + tail)[1..] == tail;
  }

  lemma {:induction false} ReplayConcat(state: State, a: seq<Op>, b: seq<Op>)
    ensures Replay(state, a).None? ==> Replay(state, a + b).None?
    ensures Replay(state, a).Some? ==> Replay(state, a + b) == Replay(Replay(state, a).value, b)
    decreases a
  {
    if a == [] {
      assert a + b == b;
    } else {
      assert (a + b)[0] == a[0] && (a + b)[1..] == a[1..] + b;
      match Step(a[0], state) {
        case None =>
        case Some(next) => ReplayConcat(next, a[1..], b);
      }
    }
  }

  lemma {:induction false} IdsConcat(a: seq<Op>, b: seq<Op>)
    ensures Ids(a + b) == Ids(a) + Ids(b)
  {
    if a == [] {
      assert a + b == b;
    } else {
      assert (a + b)[0] == a[0] && (a + b)[1..] == a[1..] + b;
      IdsConcat(a[1..], b);
    }
  }

  // ------------------------------------------------------ the final state is order free

  /** How many transactions of `order` switch `key`. */
  function Switches(order: seq<Op>, key: int): nat
  {
    if order == [] then 0
    else (if order[0].kind == Transaction && order[0].key == key then 1 else 0) + Switches(order[1..], key)
  }

  function Writers(order: seq<Op>): nat
  {
    if order == [] then 0
    else (if order[0].kind == Transaction then 1 else 0) + Writers(order[1..])
  }

  lemma {:induction false} CountsConcat(a: seq<Op>, b: seq<Op>, key: int)
    ensures Switches(a + b, key) == Switches(a, key) + Switches(b, key)
    ensures Writers(a + b) == Writers(a) + Writers(b)
  {
    if a == [] {
      assert a + b == b;
    } else {
      assert (a + b)[0] == a[0] && (a + b)[1..] == a[1..] + b;
      CountsConcat(a[1..], b, key);
    }
  }

  lemma CountsWithout(s: seq<Op>, p: nat, key: int)
    requires p < |s|
    ensures Switches(s, key) == Switches(Without(s, p), key) + Switches([s[p]], key)
    ensures Writers(s) == Writers(Without(s, p)) + Writers([s[p]])
  {
    assert s == s[..p] + s[p..] && s[p..] == [s[p]] + s[p + 1..];
    CountsConcat(s[..p], s[p..], key);
    CountsConcat([s[p]], s[p + 1..], key);
    CountsConcat(s[..p], s[p + 1..], key);
  }

  lemma {:induction false} CountsPermute(a: seq<Op>, b: seq<Op>, key: int)
    requires multiset(a) == multiset(b)
    ensures Switches(a, key) == Switches(b, key)
    ensures Writers(a) == Writers(b)
  {
    if a == [] {
      EmptyMultiset(b);
    } else {
      var p := MatchHead(a, b);
      CountsPermute(a[1..], Without(b, p), key);
      CountsWithout(b, p, key);
      assert a == [a[0]] + a[1..];
      CountsConcat([a[0]], a[1..], key);
    }
  }

  /** A state follows from another by switching each key as often as `order` does. */
  ghost predicate SwitchedBy(state: State, order: seq<Op>, final: State)
  {
    && (if Writers(order) == 0 then final == state else Ascending(final))
    && forall x: int :: x in final <==> ((x in state) != (Switches(order, x) % 2 == 1))
  }

  lemma SwitchedByStep(op: Op, state: State, next: State, order: seq<Op>, final: State)
    requires order != [] && order[0] == op
    requires Step(op, state) == Some(next) && SwitchedBy(next, order[1..], final)
    ensures SwitchedBy(state, order, final)
  {
    StepMeaning(op, state, next);
    forall x: int ensures x in final <==> ((x in state) != (Switches(order, x) % 2 == 1)) {
      if op.kind == Transaction {
        assert x in next <==> ((x in state) != (x == op.key));
      }
    }
  }

  /** Where a legal order ends: untouched without a transaction, otherwise the ascending
      list of the keys whose membership was switched an odd number of times. */
  lemma {:induction false} FinalState(state: State, order: seq<Op>, final: State)
    requires Replay(state, order) == Some(final)
    ensures SwitchedBy(state, order, final)
    decreases order
  {
    if order != [] {
      var next := Step(order[0], state).value;
      FinalState(next, order[1..], final);
      SwitchedByStep(order[0], state, next, order, final);
    }
  }

  /** Switching commutes: every legal order of the same operations ends in one state. */
  lemma Confluence(state: State, a: seq<Op>, b: seq<Op>)
    requires multiset(a) == multiset(b)
    requires Replay(state, a).Some? && Replay(state, b).Some?
    ensures Replay(state, a) == Replay(state, b)
  {
    var fa, fb := Replay(state, a).value, Replay(state, b).value;
    FinalState(state, a, fa);
    FinalState(state, b, fb);
    CountsPermute(a, b, 0);
    if Writers(a) > 0 {
      forall x ensures x in Elements(fa) <==> x in Elements(fb) {
        CountsPermute(a, b, x);
        assert x in fa <==> x in fb;
      }
      AscendingIsUnique(fa, fb);
    }
  }

  // --------------------------------------------------------------- operations by position

  /** The operations at the positions `at`, with repetition. */
  function Pick(ops: seq<Op>, at: set<nat>): multiset<Op>
  {
    if ops == [] then multiset{}
    else
      var n := |ops| - 1;
      Pick(ops[..n], at) + (if n in at then multiset{ops[n]} else multiset{})
  }

  lemma {:induction false} PickHas(ops: seq<Op>, at: set<nat>, i: nat)
    requires i < |ops| && i in at
    ensures ops[i] in Pick(ops, at)
  {
    var n := |ops| - 1;
    if i < n {
      assert ops[..n][i] == ops[i];
      PickHas(ops[..n], at, i);
    }
  }

  lemma {:induction false} PickFrom(ops: seq<Op>, at: set<nat>, x: Op) returns (i: nat)
    requires x in Pick(ops, at)
    ensures i < |ops| && i in at && ops[i] == x
  {
    var n := |ops| - 1;
    if x in Pick(ops[..n], at) {
      i := PickFrom(ops[..n], at, x);
      assert ops[..n][i] == ops[i];
    } else {
      i := n;
    }
  }

  lemma {:induction false} PickAdd(ops: seq<Op>, at: set<nat>, i: nat)
    requires i < |ops| && i !in at
    ensures Pick(ops, at + {i}) == Pick(ops, at) + multiset{ops[i]}
  {
    var n := |ops| - 1;
    var front := ops[..n];
    if i < n {
      PickAdd(front, at, i);
      assert front[i] == ops[i];
      assert n in at + {i} <==> n in at;
    } else {
      PickSame(front, at, at + {i});
    }
  }

  lemma {:induction false} PickSame(ops: seq<Op>, at: set<nat>, bt: set<nat>)
    requires forall i: nat | i < |ops| :: i in at <==> i in bt
    ensures Pick(ops, at) == Pick(ops, bt)
  {
    if ops != [] {
      PickSame(ops[..|ops| - 1], at, bt);
    }
  }

  lemma {:induction false} PickAll(ops: seq<Op>)
    ensures Pick(ops, Indices(|ops|)) == multiset(ops)
  {
    if ops != [] {
      var n := |ops| - 1;
      PickAll(ops[..n]);
      PickSame(ops[..n], Indices(n), Indices(|ops|));
      assert ops == ops[..n] + [ops[n]];
    }
  }

  lemma {:induction false} PickNone(ops: seq<Op>, at: set<nat>)
    requires forall i: nat | i < |ops| :: i !in at
    ensures Pick(ops, at) == multiset{}
  {
    if ops != [] {
      PickNone(ops[..|ops| - 1], at);
    }
  }

  // ------------------------------------------------------------------------ completions

  /** `rest` finishes a search that has taken the positions `done` and reached `state`. */
  ghost predicate Completes(ops: seq<Op>, done: set<nat>, state: State, rest: seq<Op>)
  {
    multiset(rest) == Pick(ops, Indices(|ops|) - done) && Respects(rest) && Replay(state, rest).Some?
  }

  ghost predicate Dead(ops: seq<Op>, done: set<nat>, state: State)
  {
    forall rest :: !Completes(ops, done, state, rest)
  }

  /** Positions whose operation ended before operation `i` started. */
  ghost function Earlier(ops: seq<Op>, i: nat): (s: set<nat>)
    requires i < |ops|
    ensures forall j: nat :: j in s <==> j < |ops| && ops[j].end < ops[i].start
  {
    set j: nat | j < |ops| && ops[j].end < ops[i].start
  }

  /** The condition under which the search takes position `i`. */
  ghost predicate Enabled(ops: seq<Op>, done: set<nat>, state: State, i: nat)
  {
    i < |ops| && i !in done && Earlier(ops, i) <= done && Step(ops[i], state).Some?
  }

  lemma CompletesFull(ops: seq<Op>, state: State)
    ensures Completes(ops, Indices(|ops|), state, [])
  {
    PickNone(ops, Indices(|ops|) - Indices(|ops|));
  }

  /** Taking one more position takes one operation out of what is left. */
  lemma PickLeft(ops: seq<Op>, done: set<nat>, i: nat)
    requires i < |ops| && i !in done
    ensures Pick(ops, Indices(|ops|) - done) ==
            Pick(ops, Indices(|ops|) - (done + {i})) + multiset{ops[i]}
  {
    var left := Indices(|ops|) - (done + {i});
    assert left + {i} == Indices(|ops|) - done;
    PickAdd(ops, left, i);
  }

  lemma PickLeftMember(ops: seq<Op>, done: set<nat>, x: Op) returns (i: nat)
    requires x in Pick(ops, Indices(|ops|) - done)
    ensures i < |ops| && i !in done && ops[i] == x
  {
    i := PickFrom(ops, Indices(|ops|) - done, x);
  }

  /** The head of a legal order has none of the rest before it. */
  lemma HeadIsEnabled(ops: seq<Op>, done: set<nat>, i: nat, rest: seq<Op>)
    requires multiset(rest) == Pick(ops, Indices(|ops|) - done) && Respects(rest)
    requires rest != [] && i < |ops| && ops[i] == rest[0]
    ensures Earlier(ops, i) <= done
  {
    forall j: nat | j < |ops| && j !in done ensures j !in Earlier(ops, i) {
      PickHas(ops, Indices(|ops|) - done, j);
      assert ops[j] in multiset(rest);
      var k :| 0 <= k < |rest| && rest[k] == ops[j];
      assert !(rest[k].end < rest[0].start);
    }
  }

  lemma NothingLeft(ops: seq<Op>, done: set<nat>)
    requires done < Indices(|ops|)
    ensures Pick(ops, Indices(|ops|) - done) != multiset{}
  {
    var todo := SomeElement(Indices(|ops|) - done);
    PickHas(ops, Indices(|ops|) - done, todo);
  }

  /** A completion starts with some position that the search tries. */
  lemma CompletesHead(ops: seq<Op>, done: set<nat>, state: State, rest: seq<Op>) returns (i: nat)
    requires done < Indices(|ops|) && Completes(ops, done, state, rest)
    ensures Enabled(ops, done, state, i) && rest != [] && ops[i] == rest[0]
    ensures Completes(ops, done + {i}, Step(ops[i], state).value, rest[1..])
  {
    NothingLeft(ops, done);
    EmptyMultiset(rest);
    assert rest[0] in multiset(rest);
    i := PickLeftMember(ops, done, rest[0]);
    HeadIsEnabled(ops, done, i, rest);
    CompletesTail(ops, done, state, rest, i);
  }

  lemma CompletesTail(ops: seq<Op>, done: set<nat>, state: State, rest: seq<Op>, i: nat)
    requires Completes(ops, done, state, rest) && rest != []
    requires i < |ops| && i !in done && ops[i] == rest[0]
    ensures Step(ops[i], state).Some?
    ensures Completes(ops, done + {i}, Step(ops[i], state).value, rest[1..])
  {
    PickLeft(ops, done, i);
    TailMultiset(rest);
    forall a, b | 0 <= a <= b < |rest[1..]| ensures !(rest[1..][b].end < rest[1..][a].start) {
      assert rest[1..][a] == rest[a + 1] && rest[1..][b] == rest[b + 1];
    }
  }

  /** Taking an enabled position in front of a completion gives a completion. */
  lemma CompletesCons(ops: seq<Op>, done: set<nat>, state: State, i: nat, rest: seq<Op>)
    requires Enabled(ops, done, state, i)
    requires Completes(ops, done + {i}, Step(ops[i], state).value, rest)
    ensures Completes(ops, done, state, [ops[i]] + rest)
  {
    var order := [ops[i]] + rest;
    PickLeft(ops, done, i);
    assert order[1..] == rest;
    forall b | 0 <= b < |order| ensures !(order[b].end < order[0].start) {
      if b > 0 {
        assert order[b] == rest[b - 1] && rest[b - 1] in multiset(rest);
        var j := PickLeftMember(ops, done + {i}, order[b]);
        assert j !in Earlier(ops, i);
      } else {
        assert i !in Earlier(ops, i);
      }
    }
    forall a, b | 0 <= a <= b < |order| ensures !(order[b].end < order[a].start) {
      if a > 0 { assert order[a] == rest[a - 1] && order[b] == rest[b - 1]; }
    }
  }
}
