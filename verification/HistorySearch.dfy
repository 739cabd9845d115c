/** The search itself: bit masks, a visited set shared by all branches, and the proof that
    it finds a serial order exactly when there is one. */
module HistorySearch {
  import opened Common
  import opened Bitmask
  import opened SerialHistory

  /** The mask of the first `n` operations that ended before operation `i` started. */
  function Precedence(ops: seq<Op>, i: nat, n: nat): nat
    requires i < |ops| && n <= |ops|
  {
    if n == 0 then 0
    else Precedence(ops, i, n - 1) + (if ops[n - 1].end < ops[i].start then Shift(n - 1) else 0)
  }

  lemma {:induction false} PrecedenceBits(ops: seq<Op>, i: nat, n: nat, k: nat)
    requires i < |ops| && n <= |ops|
    ensures Precedence(ops, i, n) < Pow2(n)
    ensures Bit(Precedence(ops, i, n), k) <==> k < n && ops[k].end < ops[i].start
  {
    if n == 0 {
      ZeroHasNoBit(k);
    } else {
      PrecedenceBits(ops, i, n - 1, k);
      AddPower(Precedence(ops, i, n - 1), n - 1, k);
    }
  }

  lemma PrecedenceMembers(ops: seq<Op>, i: nat)
    requires i < |ops|
    ensures Members(Precedence(ops, i, |ops|)) == Earlier(ops, i)
  {
    forall k: nat ensures k in Members(Precedence(ops, i, |ops|)) <==> k in Earlier(ops, i) {
      PrecedenceBits(ops, i, |ops|, k);
    }
  }

  lemma {:induction false} MaskBound(m: nat, n: nat)
    requires Members(m) <= Indices(n)
    ensures m < Pow2(n)
    decreases n
  {
    if n == 0 {
      NonZero(m);
    } else {
      forall i: nat ensures i in Members(m / 2) ==> i in Indices(n - 1) {
        assert Bit(m, i + 1) <==> i + 1 in Members(m);
        assert i + 1 in Indices(n) <==> i in Indices(n - 1);
      }
      MaskBound(m / 2, n - 1);
    }
  }

  /** Pairs with distinct first components below `n` are at most `n`. */
  lemma {:induction false} DistinctKeys(s: set<(nat, State)>, n: nat)
    requires forall k | k in s :: k.0 < n
    requires forall k, l | k in s && l in s :: k.0 == l.0 ==> k == l
    ensures |s| <= n
  {
    if n == 0 {
      assert s == {} by {
        forall k ensures k !in s { }
      }
    } else if exists k :: k in s && k.0 == n - 1 {
      var k :| k in s && k.0 == n - 1;
      DistinctKeys(s - {k}, n - 1);
    } else {
      DistinctKeys(s, n - 1);
    }
  }

  class Search {
    const ops: seq<Op>
    const before: seq<nat>
    const full: nat
    var visited: set<(nat, State)>
    ghost var closed: set<(nat, State)>  // keys that were explored to the end, in vain
    ghost const root: State

    ghost predicate Prepared()
    {
      && |before| == |ops| && full == Pow2(|ops|) - 1
      && forall i: nat | i < |ops| :: Members(before[i]) == Earlier(ops, i)
    }

    /** Some order of the operations in `mask` leads from the root to `state`. */
    ghost predicate ReachedBy(mask: nat, state: State, path: seq<Op>)
    {
      && Members(mask) <= Indices(|ops|)
      && multiset(path) == Pick(ops, Members(mask)) && Replay(root, path) == Some(state)
    }

    ghost predicate Reached(mask: nat, state: State)
    {
      exists path :: ReachedBy(mask, state, path)
    }

    /** Every visited key was reached; every closed one leads nowhere. */
    ghost predicate Sound()
      reads this`visited, this`closed
    {
      && (forall k | k in visited :: Reached(k.0, k.1))
      && (forall k | k in closed :: Hopeless(k))
    }

    ghost predicate Hopeless(k: (nat, State))
    {
      Dead(ops, Members(k.0), k.1)
    }

    constructor (root: State, ops: seq<Op>)
      ensures Prepared() && this.ops == ops && this.root == root
      ensures visited == {} && closed == {}
    {
      this.root := root;
      this.ops := ops;
      before := seq(|ops|, i requires 0 <= i < |ops| => Precedence(ops, i, |ops|));
      full := Pow2(|ops|) - 1;
      visited := {};
      closed := {};
      new;
      forall i: nat | i < |ops| ensures Members(before[i]) == Earlier(ops, i) {
        PrecedenceMembers(ops, i);
      }
    }

    /** One mask is reached in one state only, whatever the order taken. */
    lemma OneStatePerMask(mask: nat, s: State, t: State)
      requires Reached(mask, s) && Reached(mask, t)
      ensures s == t
    {
      var a :| ReachedBy(mask, s, a);
      var b :| ReachedBy(mask, t, b);
      Confluence(root, a, b);
    }

    /** So the search expands at most one key per mask. */
    lemma VisitedBound()
      requires Sound()
      ensures |visited| <= Pow2(|ops|)
    {
      forall k | k in visited ensures k.0 < Pow2(|ops|) {
        MaskBound(k.0, |ops|);
      }
      forall k, l | k in visited && l in visited && k.0 == l.0 ensures k == l {
        OneStatePerMask(k.0, k.1, l.1);
      }
      DistinctKeys(visited, Pow2(|ops|));
    }

    lemma ExtendPath(mask: nat, state: State, i: nat, path: seq<Op>)
      requires ReachedBy(mask, state, path)
      requires Enabled(ops, Members(mask), state, i)
      ensures ReachedBy(Or(mask, Shift(i)), Step(ops[i], state).value, path + [ops[i]])
      ensures Prepared() ==> mask < Or(mask, Shift(i)) <= full
    {
      SetBit(mask, i);
      SetBitGrows(mask, i);
      PickAdd(ops, Members(mask), i);
      ReplayConcat(root, path, [ops[i]]);
      MaskBound(Or(mask, Shift(i)), |ops|);
    }

    /** `open` holds the keys that are still being explored further up. */
    method Visit(mask: nat, state: State, order: seq<int>, ghost path: seq<Op>, ghost open: set<(nat, State)>)
      returns (result: Option<Witness>, ghost rest: seq<Op>)
      requires Prepared() && Sound() && ReachedBy(mask, state, path) && mask <= full
      requires visited <= open + closed && forall k | k in open :: k.0 < mask
      modifies this`visited, this`closed
      ensures Sound() && old(closed) <= closed
      ensures result.None? ==> visited <= open + closed && (mask, state) in closed
      ensures result.Some? ==> Found(mask, state, order, result.value, rest)
      decreases full - mask, 1
    {
      if mask == full {
        FoundNothingLeft(state, order);
        return Some(Witness(state, order)), [];
      }
      var key := (mask, state);
      if key in visited {
        return None, [];
      }
      assert Reached(mask, state);
      visited := visited + {key};
      ghost var stack := open + {key};
      result, rest := None, [];
      var i := 0;
      while i < |ops|
        invariant i <= |ops| && Sound() && old(closed) <= closed
        invariant visited <= stack + closed
        invariant Branches(mask, state, i) <= closed
      {
        result, rest := TryOperation(mask, state, order, i, path, stack);
        if result.Some? {
          return;
        }
        BranchesNext(mask, state, i, closed);
        i := i + 1;
      }
      NotFull(mask);
      AllBranchesDead(mask, state);
      closed := closed + {key};
      return None, [];
    }

    /** One turn of the loop of `Visit`. */
    method TryOperation(mask: nat, state: State, order: seq<int>, i: nat,
                        ghost path: seq<Op>, ghost open: set<(nat, State)>)
      returns (result: Option<Witness>, ghost rest: seq<Op>)
      requires Prepared() && Sound() && ReachedBy(mask, state, path) && mask <= full && i < |ops|
      requires visited <= open + closed && forall k | k in open :: k.0 <= mask
      modifies this`visited, this`closed
      ensures Sound() && old(closed) <= closed
      ensures result.None? ==> visited <= open + closed && Branch(mask, state, i) <= closed
      ensures result.Some? ==> Found(mask, state, order, result.value, rest)
      decreases full - mask, 0
    {
      var after := Take(mask, state, i);
      if after.None? {
        return None, [];
      }
      ExtendPath(mask, state, i, path);
      ghost var tail;
      result, tail := Visit(Or(mask, Shift(i)), after.value, order + [ops[i].id], path + [ops[i]], open);
      if result.None? {
        return None, [];
      }
      Prepend(mask, state, order, i, result.value, tail);
      rest := [ops[i]] + tail;
    }

    /** What one turn of the loop goes on with: nothing when the operation was taken, when
        one before it was not, or when it did not see or leave the right state. */
    function Take(mask: nat, state: State, i: nat): (after: Option<State>)
      requires Prepared() && i < |ops|
      ensures after == if Enabled(ops, Members(mask), state, i) then Step(ops[i], state) else None
    {
      TestBit(mask, i);
      TestSubset(before[i], mask);
      var op := ops[i];
      if And(mask, Shift(i)) != 0 || AndNot(before[i], mask) != 0 || op.observed != state then None
      else if op.kind == Transaction then
        var after := Toggle(state, op.key);
        if op.after != after then None else Some(after)
      else if op.kind == ReadOnlyTransaction && op.after != state then None
      else Some(state)
    }

    /** The key that the turn for operation `i` explores, if any. */
    ghost function Branch(mask: nat, state: State, i: nat): set<(nat, State)>
      requires Prepared() && i < |ops|
    {
      var after := Take(mask, state, i);
      if after.Some? then {(Or(mask, Shift(i)), after.value)} else {}
    }

    ghost function Branches(mask: nat, state: State, n: nat): set<(nat, State)>
      requires Prepared() && n <= |ops|
    {
      if n == 0 then {} else Branches(mask, state, n - 1) + Branch(mask, state, n - 1)
    }

    lemma BranchesNext(mask: nat, state: State, i: nat, keys: set<(nat, State)>)
      requires Prepared() && i < |ops|
      requires Branches(mask, state, i) <= keys && Branch(mask, state, i) <= keys
      ensures Branches(mask, state, i + 1) <= keys
    {
    }

    lemma {:induction false} BranchesMember(mask: nat, state: State, n: nat, i: nat)
      requires Prepared() && i < n <= |ops| && Enabled(ops, Members(mask), state, i)
      ensures (Or(mask, Shift(i)), Step(ops[i], state).value) in Branches(mask, state, n)
    {
      if i < n - 1 { BranchesMember(mask, state, n - 1, i); }
    }

    /** `rest` completes the search, and the witness continues `order` with it. */
    ghost predicate Found(mask: nat, state: State, order: seq<int>, w: Witness, rest: seq<Op>)
    {
      && Completes(ops, Members(mask), state, rest)
      && w.order == order + Ids(rest)
      && Replay(state, rest) == Some(w.state)
    }

    lemma PrependCompletion(mask: nat, state: State, i: nat, tail: seq<Op>)
      requires Enabled(ops, Members(mask), state, i)
      requires Completes(ops, Members(Or(mask, Shift(i))), Step(ops[i], state).value, tail)
      ensures Completes(ops, Members(mask), state, [ops[i]] + tail)
    {
      SetBit(mask, i);
      CompletesCons(ops, Members(mask), state, i, tail);
    }

    lemma Prepend(mask: nat, state: State, order: seq<int>, i: nat, w: Witness, tail: seq<Op>)
      requires Enabled(ops, Members(mask), state, i)
      requires Found(Or(mask, Shift(i)), Step(ops[i], state).value, order + [ops[i].id], w, tail)
      ensures Found(mask, state, order, w, [ops[i]] + tail)
    {
      PrependCompletion(mask, state, i, tail);
      ReplayCons(ops[i], tail, state);
      IdsCons(order, ops[i], tail);
    }

    lemma FoundNothingLeft(state: State, order: seq<int>)
      requires Prepared()
      ensures Found(full, state, order, Witness(state, order), [])
    {
      FullMembers(|ops|);
      CompletesFull(ops, state);
    }

    lemma NotFull(mask: nat)
      requires Prepared() && Members(mask) <= Indices(|ops|) && mask != full
      ensures Members(mask) < Indices(|ops|)
    {
      FullMembers(|ops|);
      if Members(mask) == Indices(|ops|) { Extensional(mask, full); }
    }

    lemma AllBranchesDead(mask: nat, state: State)
      requires Prepared() && Sound() && Members(mask) < Indices(|ops|)
      requires Branches(mask, state, |ops|) <= closed
      ensures Hopeless((mask, state))
    {
      forall rest ensures !Completes(ops, Members(mask), state, rest) {
        if Completes(ops, Members(mask), state, rest) {
          var i := CompletesHead(ops, Members(mask), state, rest);
          SetBit(mask, i);
          BranchesMember(mask, state, |ops|, i);
          assert false;
        }
      }
    }
  }

  /** Some legal serial order of the completed operations exists. */
  ghost predicate Serializable(initial: seq<int>, history: seq<Op>)
  {
    exists o :: SerialOrder(Sort(initial), Completed(history), o)
  }

  /** The checker's question and its answer, said without the checker. */
  ghost predicate Explainable(initial: seq<int>, history: seq<Op>)
  {
    exists order, states :: Explanation(initial, history, order, states)
  }

  ghost predicate ExplainedBy(w: Witness, initial: seq<int>, history: seq<Op>, order: seq<Op>)
  {
    && |w.order| == |order| && (forall k | 0 <= k < |order| :: w.order[k] == order[k].id)
    && exists states :: Explanation(initial, history, order, states) && states[|order|] == w.state
  }

  lemma SerializableMeaning(initial: seq<int>, history: seq<Op>)
    ensures Serializable(initial, history) <==> Explainable(initial, history)
  {
    var start := Sort(initial);
    if Serializable(initial, history) {
      var order :| SerialOrder(start, Completed(history), order);
      ExplanationMeaning(initial, history, order, Replay(start, order).value);
    }
    forall order, states | Explanation(initial, history, order, states) ensures Serializable(initial, history) {
      ExplanationMeaning(initial, history, order, states[|order|]);
    }
  }

  /** The witness of a check: an order, with its identifiers and the state it ends in. */
  ghost predicate Witnesses(w: Witness, initial: seq<int>, history: seq<Op>, order: seq<Op>)
  {
    && SerialOrder(Sort(initial), Completed(history), order)
    && w.order == Ids(order)
    && Replay(Sort(initial), order) == Some(w.state)
  }

  lemma WitnessMeaning(w: Witness, initial: seq<int>, history: seq<Op>, order: seq<Op>)
    ensures Witnesses(w, initial, history, order) <==> ExplainedBy(w, initial, history, order)
  {
    ExplanationMeaning(initial, history, order, w.state);
    if ExplainedBy(w, initial, history, order) { assert w.order == Ids(order); }
  }

  /** `serial_history`: a witness comes back exactly when the completed operations of the
      history have an explanation, and it is the identifiers and the last state of one. */
  method FindSerialOrder(initial: seq<int>, history: seq<Op>)
    returns (result: Option<Witness>, ghost order: seq<Op>)
    ensures result.Some? <==> Explainable(initial, history)
    ensures result.Some? ==> ExplainedBy(result.value, initial, history, order)
    ensures result.Some? <==> Serializable(initial, history)
    ensures result.Some? ==> Witnesses(result.value, initial, history, order)
  {
    result, order := Decide(initial, history);
    SerializableMeaning(initial, history);
    if result.Some? { WitnessMeaning(result.value, initial, history, order); }
  }

  /** The search from the empty mask, over the completed operations. */
  method Decide(initial: seq<int>, history: seq<Op>) returns (result: Option<Witness>, ghost order: seq<Op>)
    ensures result.Some? <==> Serializable(initial, history)
    ensures result.Some? ==> Witnesses(result.value, initial, history, order)
  {
    var ops := Completed(history);
    var start := Sort(initial);
    var search := new Search(start, ops);
    ZeroMask();
    PickNone(ops, Members(0));
    result, order := search.Visit(0, start, [], [], {});
    forall o ensures SerialOrder(start, ops, o) <==> Completes(ops, Members(0), start, o) {
      CompletesFromScratch(ops, start, o);
    }
    if result.None? {
      assert search.Hopeless((0, start));
    } else {
      assert search.Found(0, start, [], result.value, order);
    }
  }

  lemma CompletesFromScratch(ops: seq<Op>, start: State, o: seq<Op>)
    ensures SerialOrder(start, ops, o) <==> Completes(ops, Members(0), start, o)
  {
    ZeroMask();
    PickAll(ops);
    assert Indices(|ops|) - Members(0) == Indices(|ops|);
  }

  lemma ZeroMask()
    ensures Members(0) == {}
  {
    forall i: nat ensures i !in Members(0) { ZeroHasNoBit(i); }
  }
}
