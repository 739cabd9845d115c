/** The offline audit of a transfer database, with SQL's NULLs: what it establishes, and
    exactly when that is the whole truth. */
module Audit {
  import opened Common
  import T = Transfers

  /** A cell as it is stored.  The columns `src`, `dst`, `tx` and `account` have no declared
      type and keep whatever they are given; an INTEGER or TEXT column converts what it can. */
  datatype Cell = Null | Int(n: int) | Real(r: real) | Text(s: string) | Blob(b: string)

  datatype TransferRow = TransferRow(id: int, src: Cell, dst: Cell, amount: Cell, payload: Cell)

  datatype LedgerRow = LedgerRow(tx: Cell, account: Cell, delta: Cell)

  datatype AccountRow = AccountRow(id: int, balance: Cell)

  /** The tables in the order of the audit's queries.  `number` is the whole number that a text
      looks like, if it looks like one; `intact` is SQLite's own check. */
  datatype Tables = Tables(accounts: seq<AccountRow>, transfers: seq<TransferRow>, ledger: seq<LedgerRow>,
                           number: string -> Option<int>, intact: bool)

  function Payload(): (s: string)
    ensures |s| == 256 && forall k | 0 <= k < 256 :: s[k] == 'x'
  {
    seq(256, k requires 0 <= k < 256 => 'x')
  }

  // ------------------------------------------------------------------ three-valued queries

  datatype Truth = True | False | Unknown

  /** Integers and whole reals are one number to every comparison. */
  function Value(c: Cell): (v: Cell)
    ensures c.Int? ==> v == c
    ensures v == Null <==> c == Null
  {
    if c.Real? && c.r == c.r.Floor as real then Int(c.r.Floor) else c
  }

  /** A comparison of two cells as they are: a text is never a number. */
  function Same(a: Cell, b: Cell): Truth
  {
    if a == Null || b == Null then Unknown else if Value(a) == Value(b) then True else False
  }

  function And(a: Truth, b: Truth): Truth
  {
    if a == False || b == False then False else if a == True && b == True then True else Unknown
  }

  function Or(a: Truth, b: Truth): Truth
  {
    if a == True || b == True then True else if a == False && b == False then False else Unknown
  }

  function Not(a: Truth): Truth
  {
    match a case True => False case False => True case Unknown => Unknown
  }

  /** The amounts are integers by the time that this is asked for. */
  function Negated(a: Cell): Cell
  {
    if a.Int? then Int(-a.n) else Null
  }

  /** The WHERE clause of the query for invalid ledger rows. */
  function Mismatch(l: LedgerRow, t: TransferRow): Truth
  {
    Not(Or(And(Same(l.account, t.src), Same(l.delta, Negated(t.amount))),
           And(Same(l.account, t.dst), Same(l.delta, t.amount))))
  }

  /** A comparison with an integer key, and a foreign key: here a text counts as the number it
      looks like. */
  function Key(c: Cell, number: string -> Option<int>): Option<int>
  {
    match c
    case Text(s) => number(s)
    case _ => if Value(c).Int? then Some(Value(c).n) else None
  }

  predicate AnyInvalid(t: Tables)
  {
    exists l, r | l in t.ledger && r in t.transfers :: Key(l.tx, t.number) == Some(r.id) && Mismatch(l, r) == True
  }

  /** A group of GROUP BY tx, under the value `tx`: NULLs are one group, and a text is none of
      the number it looks like. */
  function Group(ledger: seq<LedgerRow>, tx: Cell): seq<LedgerRow>
  {
    if ledger == [] then []
    else
      var last := ledger[|ledger| - 1];
      Group(ledger[..|ledger| - 1], tx) + if Value(last.tx) == tx then [last] else []
  }

  /** COUNT(DISTINCT account) does not count NULL. */
  function DistinctAccounts(rows: seq<LedgerRow>): set<Cell>
  {
    set l | l in rows && l.account != Null :: Value(l.account)
  }

  /** Two cells hold one value if they are the same, or the same number. */
  lemma ValueMeaning(a: Cell, b: Cell)
    ensures Value(a) == Value(b) <==>
            || a == b
            || (a.Int? && b.Real? && a.n as real == b.r)
            || (a.Real? && b.Int? && a.r == b.n as real)
  {
    if a.Real? && b.Real? && Value(a).Int? && Value(b).Int? { assert Value(a) == Value(b) ==> a.r == b.r; }
  }

  /** What refers to an integer key: that number, or a text that looks like it. */
  lemma KeyMeaning(c: Cell, number: string -> Option<int>, k: int)
    ensures Key(c, number) == Some(k) <==>
            c == Int(k) || c == Real(k as real) || (c.Text? && number(c.s) == Some(k))
  {
  }

  /** Both cells are known, and they hold different values. */
  ghost predicate Differs(a: Cell, b: Cell)
  {
    a != Null && b != Null && Value(a) != Value(b)
  }

  /** A row is reported exactly if it is neither the debit nor the credit for certain: a NULL
      leaves that open. */
  lemma MismatchMeaning(l: LedgerRow, t: TransferRow)
    ensures Mismatch(l, t) == True <==>
            && (Differs(l.account, t.src) || Differs(l.delta, Negated(t.amount)))
            && (Differs(l.account, t.dst) || Differs(l.delta, t.amount))
  {
  }

  predicate AnyBadPair(ledger: seq<LedgerRow>)
  {
    exists l | l in ledger :: |Group(ledger, Value(l.tx))| != 2 || |DistinctAccounts(Group(ledger, Value(l.tx)))| != 2
  }

  predicate Refers(c: Cell, keys: set<int>, number: string -> Option<int>)
  {
    c == Null || (Key(c, number).Some? && Key(c, number).value in keys)
  }

  function AccountIds(accounts: seq<AccountRow>): set<int>
  {
    set a | a in accounts :: a.id
  }

  function TransferIds(transfers: seq<TransferRow>): set<int>
  {
    set r | r in transfers :: r.id
  }

  /** PRAGMA foreign_key_check finds nothing. */
  predicate KeysHold(t: Tables)
  {
    && (forall r | r in t.transfers ::
          Refers(r.src, AccountIds(t.accounts), t.number) && Refers(r.dst, AccountIds(t.accounts), t.number))
    && (forall l | l in t.ledger ::
          Refers(l.tx, TransferIds(t.transfers), t.number) && Refers(l.account, AccountIds(t.accounts), t.number))
  }

  // ----------------------------------------------------------------------------- the audit

  function Expected(id: nat): TransferRow
  {
    TransferRow(id, Int(T.Source(id) + 1), Int(T.Target(id) + 1), Int(T.Amount(id)), Text(Payload()))
  }

  ghost predicate ExactTransfers(transfers: seq<TransferRow>)
  {
    forall k | 0 <= k < |transfers| :: transfers[k] == Expected(k + 1)
  }

  ghost predicate ExactAccounts(accounts: seq<AccountRow>, n: nat)
  {
    |accounts| == 3 && forall a: T.Account :: accounts[a] == AccountRow(a + 1, Int(T.OPENING + T.Drift(n, a)))
  }

  /** The audit ends without an error. */
  ghost predicate Passes(t: Tables)
  {
    && ExactTransfers(t.transfers) && ExactAccounts(t.accounts, |t.transfers|)
    && t.intact && KeysHold(t) && !AnyInvalid(t) && !AnyBadPair(t.ledger)
    && |t.ledger| == 2 * |t.transfers|
  }

  /** The checks on one row of the replay.  A real source that equals the prescribed number gets
      past the comparison, and then is no index into the balances: an error all the same. */
  predicate AsPrescribed(r: TransferRow, expected: nat)
  {
    && r.id == expected && r.src == Int(r.id % 3 + 1) && r.dst == Int((r.id % 3 + 1) % 3 + 1)
    && r.amount == Int(r.id % 17 + 1) && r.payload == Text(Payload())
  }

  lemma PrescribedRow(r: TransferRow, expected: nat)
    ensures AsPrescribed(r, expected) <==> r == Expected(expected)
  {
  }

  method Post(balances: array<int>, source: int, target: int, amount: int, ghost id: nat)
    requires balances.Length == 3 && source == T.Source(id) + 1 && target == T.Target(id) + 1 && amount == T.Amount(id)
    modifies balances
    ensures forall a: T.Account :: balances[a] == old(balances[a]) + T.Delta(id, a)
  {
    balances[source - 1] := balances[source - 1] - amount;
    balances[target - 1] := balances[target - 1] + amount;
  }

  /** The loop of `audit`: every row must be the next one prescribed. */
  method Replay(transfers: seq<TransferRow>, balances: array<int>) returns (ok: bool)
    requires balances.Length == 3 && forall a: T.Account :: balances[a] == T.OPENING
    modifies balances
    ensures ok <==> ExactTransfers(transfers)
    ensures ok ==> forall a: T.Account :: balances[a] == T.OPENING + T.Drift(|transfers|, a)
  {
    var expected, i := 1, 0;
    while i < |transfers|
      invariant i <= |transfers| && expected == i + 1
      invariant forall k | 0 <= k < i :: transfers[k] == Expected(k + 1)
      invariant forall a: T.Account :: balances[a] == T.OPENING + T.Drift(i, a)
    {
      ok := ReplayRow(transfers[i], expected, balances);
      if !ok {
        return;
      }
      expected := expected + 1;
      i := i + 1;
    }
    ok := true;
  }

  /** One row of the loop. */
  method ReplayRow(r: TransferRow, expected: nat, balances: array<int>) returns (ok: bool)
    requires balances.Length == 3
    modifies balances
    ensures ok <==> r == Expected(expected)
    ensures ok ==> forall a: T.Account :: balances[a] == old(balances[a]) + T.Delta(expected, a)
  {
    PrescribedRow(r, expected);
    if !AsPrescribed(r, expected) {
      return false;
    }
    Post(balances, r.src.n, r.dst.n, r.amount.n, expected);
    ok := true;
  }

  /** `audit`: the transfers are replayed row by row, the rest is asked of the database. */
  method Check(t: Tables) returns (ok: bool)
    ensures ok <==> Passes(t)
  {
    var b := new int[3](_ => T.OPENING);
    ok := Replay(t.transfers, b);
    if !ok {
      return;
    }
    Listed(t.accounts, |t.transfers|);
    var x, y, z: T.Account := 0, 1, 2;
    var actual := [AccountRow(1, Int(b[x])), AccountRow(2, Int(b[y])), AccountRow(3, Int(b[z]))];
    if t.accounts != actual {
      return false;
    }
    ok := t.intact && KeysHold(t) && !AnyInvalid(t) && !AnyBadPair(t.ledger)
          && |t.ledger| == 2 * |t.transfers|;
  }

  lemma Listed(accounts: seq<AccountRow>, n: nat)
    ensures ExactAccounts(accounts, n) ==>
              accounts == [AccountRow(1, Int(T.OPENING + T.Drift(n, 0))), AccountRow(2,
                      Int(T.OPENING + T.Drift(n, 1))),
                           AccountRow(3, Int(T.OPENING + T.Drift(n, 2)))]
  {
    if ExactAccounts(accounts, n) {
      var a, b, c: T.Account := 0, 1, 2;
      assert accounts[a].id == 1 && accounts[b].id == 2 && accounts[c].id == 3;
    }
  }

  // -------------------------------------------------------------------- what it is meant to show

  function Debit(id: nat): LedgerRow
  {
    LedgerRow(Int(id), Int(T.Source(id) + 1), Int(-T.Amount(id)))
  }

  function Credit(id: nat): LedgerRow
  {
    LedgerRow(Int(id), Int(T.Target(id) + 1), Int(T.Amount(id)))
  }

  function Pairs(n: nat): (r: seq<LedgerRow>)
    ensures |r| == 2 * n
  {
    if n == 0 then [] else Pairs(n - 1) + [Debit(n), Credit(n)]
  }

  /** The database is exactly that of transfers 1 to n, each with its debit and its credit. */
  ghost predicate Exact(t: Tables)
  {
    && ExactTransfers(t.transfers) && ExactAccounts(t.accounts, |t.transfers|)
    && multiset(t.ledger) == multiset(Pairs(|t.transfers|)) && t.intact
  }

  /** What the audit never asks: whether every cell of the ledger is stored as an integer. */
  predicate AllIntegers(ledger: seq<LedgerRow>)
  {
    forall l | l in ledger :: l.tx.Int? && l.account.Int? && l.delta.Int?
  }

  // ----------------------------------------------------------------------------- the proof

  /** The ledger rows of transfers 1 to `n`, collected transfer by transfer. */
  function Gathered(ledger: seq<LedgerRow>, n: nat): seq<LedgerRow>
  {
    if n == 0 then [] else Gathered(ledger, n - 1) + Group(ledger, Int(n))
  }

  function IfNamed(l: LedgerRow, n: nat): seq<LedgerRow>
  {
    if Value(l.tx).Int? && 1 <= Value(l.tx).n <= n then [l] else []
  }

  function Named(ledger: seq<LedgerRow>, n: nat): seq<LedgerRow>
  {
    if ledger == [] then [] else Named(ledger[..|ledger| - 1], n) + IfNamed(ledger[|ledger| - 1], n)
  }

  lemma AddBags(a: seq<LedgerRow>, b: seq<LedgerRow>, c: seq<LedgerRow>,
                x: seq<LedgerRow>, y: seq<LedgerRow>, z: seq<LedgerRow>)
    requires multiset(a) == multiset(b) + multiset(c) && multiset(x) == multiset(y) + multiset(z)
    ensures multiset(a + x) == multiset(b + y) + multiset(c + z)
  {
  }

  lemma {:induction false} NamedStep(ledger: seq<LedgerRow>, n: nat)
    requires n > 0
    ensures multiset(Named(ledger, n)) == multiset(Named(ledger, n - 1)) + multiset(Group(ledger, Int(n)))
  {
    if ledger != [] {
      var rest, last := ledger[..|ledger| - 1], ledger[|ledger| - 1];
      NamedStep(rest, n);
      AddBags(Named(rest, n), Named(rest, n - 1), Group(rest, Int(n)),
              IfNamed(last, n), IfNamed(last, n - 1), if Value(last.tx) == Int(n) then [last] else []);
    }
  }

  lemma {:induction false} NothingNamed(ledger: seq<LedgerRow>)
    ensures Named(ledger, 0) == []
  {
    if ledger != [] { NothingNamed(ledger[..|ledger| - 1]); }
  }

  lemma {:induction false} GatheredIsNamed(ledger: seq<LedgerRow>, n: nat)
    ensures multiset(Gathered(ledger, n)) == multiset(Named(ledger, n))
  {
    if n == 0 {
      NothingNamed(ledger);
    } else {
      GatheredIsNamed(ledger, n - 1);
      NamedStep(ledger, n);
    }
  }

  lemma {:induction false} AllNamed(ledger: seq<LedgerRow>, n: nat)
    requires forall l | l in ledger :: l.tx.Int? && 1 <= l.tx.n <= n
    ensures Named(ledger, n) == ledger
  {
    if ledger != [] {
      var rest, last := ledger[..|ledger| - 1], ledger[|ledger| - 1];
      assert ledger == rest + [last] && last in ledger;
      forall l | l in rest ensures l in ledger {
      }
      AllNamed(rest, n);
    }
  }

  /** The pigeonhole: groups of at most two that hold 2n rows together hold two each. */
  lemma {:induction false} TwoEach(ledger: seq<LedgerRow>, n: nat, id: nat)
    requires forall k | 1 <= k <= n :: |Group(ledger, Int(k))| <= 2
    requires 1 <= id <= n
    ensures |Gathered(ledger, n)| <= 2 * n
    ensures |Gathered(ledger, n)| == 2 * n ==> |Group(ledger, Int(id))| == 2
  {
    AtMostTwoEach(ledger, n - 1);
    if id < n { TwoEach(ledger, n - 1, id); }
  }

  lemma {:induction false} AtMostTwoEach(ledger: seq<LedgerRow>, n: nat)
    requires forall k | 1 <= k <= n :: |Group(ledger, Int(k))| <= 2
    ensures |Gathered(ledger, n)| <= 2 * n
  {
    if n > 0 { AtMostTwoEach(ledger, n - 1); }
  }

  lemma TwoAccounts(a: LedgerRow, b: LedgerRow)
    ensures |DistinctAccounts([a, b])| == 2 ==>
              a.account != Null && b.account != Null && Value(a.account) != Value(b.account)
  {
    var both := DistinctAccounts([a, b]);
    if a.account == Null || b.account == Null || Value(a.account) == Value(b.account) {
      var one := if a.account != Null then a.account else b.account;
      var bound := if one == Null then {} else {Value(one)};
      assert both <= bound;
      assert both == {} || both == bound;
    }
  }

  /** Two matching rows with two accounts are the debit and the credit. */
  lemma PairOfRows(rows: seq<LedgerRow>, id: nat)
    requires |rows| == 2 && |DistinctAccounts(rows)| == 2 && AllIntegers(rows)
    requires forall l | l in rows :: l.tx == Int(id) && Mismatch(l, Expected(id)) != True
    ensures multiset(rows) == multiset{Debit(id), Credit(id)}
  {
    var a, b := rows[0], rows[1];
    assert rows == [a, b];
    TwoAccounts(a, b);
    assert a == Debit(id) || a == Credit(id);
    assert b == Debit(id) || b == Credit(id);
  }

  lemma {:induction false} GatheredPairs(ledger: seq<LedgerRow>, n: nat)
    requires forall id: nat | 1 <= id <= n :: multiset(Group(ledger, Int(id))) == multiset{Debit(id), Credit(id)}
    ensures multiset(Gathered(ledger, n)) == multiset(Pairs(n))
  {
    if n > 0 { GatheredPairs(ledger, n - 1); }
  }

  lemma LedgerInRange(t: Tables, l: LedgerRow)
    requires Passes(t) && l in t.ledger && l.tx.Int?
    ensures 1 <= l.tx.n <= |t.transfers| && t.transfers[l.tx.n - 1] == Expected(l.tx.n)
  {
    assert Refers(l.tx, TransferIds(t.transfers), t.number);
  }

  lemma PassingPairs(t: Tables, id: nat)
    requires Passes(t) && AllIntegers(t.ledger) && 1 <= id <= |t.transfers|
    ensures multiset(Group(t.ledger, Int(id))) == multiset{Debit(id), Credit(id)}
  {
    var n := |t.transfers|;
    forall k | 1 <= k <= n ensures |Group(t.ledger, Int(k))| <= 2 {
      NoBadGroup(t.ledger, Int(k));
    }
    forall l | l in t.ledger ensures l.tx.Int? && 1 <= l.tx.n <= n {
      LedgerInRange(t, l);
    }
    AllNamed(t.ledger, n);
    GatheredIsNamed(t.ledger, n);
    assert |multiset(Gathered(t.ledger, n))| == |multiset(t.ledger)|;
    TwoEach(t.ledger, n, id);
    NoBadGroup(t.ledger, Int(id));
    forall l | l in Group(t.ledger, Int(id))
      ensures l in t.ledger && l.tx == Int(id) && Mismatch(l, Expected(id)) != True
    {
      GroupMember(t.ledger, Int(id), l);
      LedgerInRange(t, l);
      assert l in t.ledger && t.transfers[id - 1] in t.transfers;
    }
    PairOfRows(Group(t.ledger, Int(id)), id);
  }

  lemma {:induction false} GroupMember(ledger: seq<LedgerRow>, tx: Cell, l: LedgerRow)
    ensures l in Group(ledger, tx) <==> (l in ledger && Value(l.tx) == tx)
  {
    if ledger != [] {
      var rest, last := ledger[..|ledger| - 1], ledger[|ledger| - 1];
      assert ledger == rest + [last];
      GroupMember(rest, tx, l);
    }
  }

  lemma NoBadGroup(ledger: seq<LedgerRow>, tx: Cell)
    requires !AnyBadPair(ledger)
    ensures Group(ledger, tx) == [] || (|Group(ledger, tx)| == 2 && |DistinctAccounts(Group(ledger, tx))| == 2)
  {
    if Group(ledger, tx) != [] {
      var l := Group(ledger, tx)[0];
      GroupMember(ledger, tx, l);
      assert l in ledger && Value(l.tx) == tx;
    }
  }

  /** With integers only a passing audit shows exactly the prescribed database. */
  lemma PassingIsExact(t: Tables)
    requires Passes(t) && AllIntegers(t.ledger)
    ensures Exact(t)
  {
    var n := |t.transfers|;
    forall id: nat | 1 <= id <= n ensures multiset(Group(t.ledger, Int(id))) == multiset{Debit(id), Credit(id)} {
      PassingPairs(t, id);
    }
    GatheredPairs(t.ledger, n);
    GatheredIsNamed(t.ledger, n);
    forall l | l in t.ledger ensures l.tx.Int? && 1 <= l.tx.n <= n {
      LedgerInRange(t, l);
    }
    AllNamed(t.ledger, n);
  }

  lemma {:induction false} PairsMember(n: nat, l: LedgerRow)
    requires l in Pairs(n)
    ensures l.tx.Int? && 1 <= l.tx.n <= n
    ensures l == Debit(l.tx.n) || l == Credit(l.tx.n)
  {
    if l in Pairs(n - 1) { PairsMember(n - 1, l); }
  }

  /** The condition is exact: a passing audit shows the prescribed database if and only if
      every cell of the ledger is stored as an integer. */
  lemma AuditIsExact(t: Tables)
    requires Passes(t)
    ensures Exact(t) <==> AllIntegers(t.ledger)
  {
    if AllIntegers(t.ledger) {
      PassingIsExact(t);
    } else if Exact(t) {
      forall l | l in t.ledger ensures l.tx.Int? && l.account.Int? && l.delta.Int? {
        assert l in multiset(t.ledger);
        assert l in Pairs(|t.transfers|);
        PairsMember(|t.transfers|, l);
      }
    }
  }

  // ------------------------------------------------------------------------ no false alarm

  lemma {:induction false} GroupCount(ledger: seq<LedgerRow>, tx: Cell, l: LedgerRow)
    ensures multiset(Group(ledger, tx))[l] == if Value(l.tx) == tx then multiset(ledger)[l] else 0
  {
    if ledger != [] {
      var rest, last := ledger[..|ledger| - 1], ledger[|ledger| - 1];
      assert ledger == rest + [last];
      GroupCount(rest, tx, l);
    }
  }

  lemma GroupOfBag(a: seq<LedgerRow>, b: seq<LedgerRow>, tx: Cell)
    requires multiset(a) == multiset(b)
    ensures multiset(Group(a, tx)) == multiset(Group(b, tx))
  {
    forall l: LedgerRow ensures multiset(Group(a, tx))[l] == multiset(Group(b, tx))[l] {
      GroupCount(a, tx, l);
      GroupCount(b, tx, l);
    }
  }

  lemma GroupOfTwoMore(p: seq<LedgerRow>, x: LedgerRow, y: LedgerRow, tx: Cell)
    ensures Group(p + [x, y], tx) ==
            Group(p, tx) + (if Value(x.tx) == tx then [x] else []) + (if Value(y.tx) == tx then [y] else [])
  {
    var all := p + [x, y];
    assert all[..|all| - 1] == p + [x];
    assert (p + [x])[..|p|] == p;
  }

  lemma {:induction false} GroupOfPairs(n: nat, id: nat)
    ensures Group(Pairs(n), Int(id)) == if 1 <= id <= n then [Debit(id), Credit(id)] else []
  {
    if n > 0 {
      GroupOfPairs(n - 1, id);
      PairGroup(Pairs(n - 1), Debit(n), Credit(n), n, id);
    }
  }

  lemma PairGroup(p: seq<LedgerRow>, x: LedgerRow, y: LedgerRow, n: nat, id: nat)
    requires x.tx == y.tx == Int(n)
    ensures Group(p + [x, y], Int(id)) == if n == id then Group(p, Int(id)) + [x, y] else Group(p, Int(id))
  {
    GroupOfTwoMore(p, x, y, Int(id));
  }

  lemma ExactRow(t: Tables, l: LedgerRow) returns (id: nat)
    requires Exact(t) && l in t.ledger
    ensures 1 <= id <= |t.transfers| && l.tx == Int(id) && (l == Debit(id) || l == Credit(id))
    ensures t.transfers[id - 1] == Expected(id)
  {
    assert l in multiset(t.ledger);
    PairsMember(|t.transfers|, l);
    id := l.tx.n;
  }

  lemma KnownAccount(t: Tables, a: T.Account)
    requires ExactAccounts(t.accounts, |t.transfers|)
    ensures Refers(Int(a + 1), AccountIds(t.accounts), t.number)
  {
    assert t.accounts[a] in t.accounts;
  }

  lemma ExactKeys(t: Tables)
    requires Exact(t)
    ensures KeysHold(t)
  {
    KnownAccount(t, 0);
    KnownAccount(t, 1);
    KnownAccount(t, 2);
    forall l | l in t.ledger
      ensures Refers(l.tx, TransferIds(t.transfers), t.number) && Refers(l.account, AccountIds(t.accounts), t.number)
    {
      var id := ExactRow(t, l);
      assert t.transfers[id - 1] in t.transfers;
    }
  }

  lemma ExactPair(t: Tables, l: LedgerRow)
    requires Exact(t) && l in t.ledger
    ensures |Group(t.ledger, Value(l.tx))| == 2 && |DistinctAccounts(Group(t.ledger, Value(l.tx)))| == 2
  {
    var id := ExactRow(t, l);
    PairBag(t.ledger, |t.transfers|, id);
    TwoRows(Group(t.ledger, Int(id)), Debit(id), Credit(id));
  }

  lemma PairBag(ledger: seq<LedgerRow>, n: nat, id: nat)
    requires multiset(ledger) == multiset(Pairs(n)) && 1 <= id <= n
    ensures multiset(Group(ledger, Int(id))) == multiset([Debit(id), Credit(id)])
  {
    GroupOfBag(ledger, Pairs(n), Int(id));
    GroupOfPairs(n, id);
  }

  lemma TwoRows(rows: seq<LedgerRow>, x: LedgerRow, y: LedgerRow)
    requires multiset(rows) == multiset([x, y])
    requires x.account != Null && y.account != Null && Value(x.account) != Value(y.account)
    ensures |rows| == 2 && |DistinctAccounts(rows)| == 2
  {
    assert |rows| == |multiset(rows)|;
    assert x in multiset(rows) && y in multiset(rows);
    forall r | r in rows ensures r == x || r == y {
      assert r in multiset(rows);
    }
    assert DistinctAccounts(rows) == {Value(x.account), Value(y.account)};
  }

  lemma ExactMatches(t: Tables)
    requires Exact(t)
    ensures !AnyInvalid(t)
  {
    forall l, r | l in t.ledger && r in t.transfers && Key(l.tx, t.number) == Some(r.id)
      ensures Mismatch(l, r) != True
    {
      var id := ExactRow(t, l);
      assert r == Expected(id);
    }
  }

  lemma ExactPairs(t: Tables)
    requires Exact(t)
    ensures !AnyBadPair(t.ledger)
  {
    forall l | l in t.ledger
      ensures |Group(t.ledger, Value(l.tx))| == 2 && |DistinctAccounts(Group(t.ledger, Value(l.tx)))| == 2
    {
      ExactPair(t, l);
    }
  }

  /** Every exact database passes. */
  lemma ExactPasses(t: Tables)
    requires Exact(t)
    ensures Passes(t)
  {
    ExactKeys(t);
    ExactMatches(t);
    ExactPairs(t);
    assert |multiset(t.ledger)| == |multiset(Pairs(|t.transfers|))|;
  }

  // ------------------------------------------------------------ what the ledger adds up to

  /** What the ledger posts to an account. */
  function Posted(ledger: seq<LedgerRow>, account: int): int
  {
    if ledger == [] then 0 else Posted(ledger[..|ledger| - 1], account) + Share(ledger[|ledger| - 1], account)
  }

  function Share(l: LedgerRow, account: int): int
  {
    if l.account == Int(account) && l.delta.Int? then l.delta.n else 0
  }

  lemma {:induction false} PostedConcat(x: seq<LedgerRow>, y: seq<LedgerRow>, account: int)
    ensures Posted(x + y, account) == Posted(x, account) + Posted(y, account)
  {
    if y == [] {
      assert x + y == x;
    } else {
      var all := x + y;
      assert all[..|all| - 1] == x + y[..|y| - 1];
      PostedConcat(x, y[..|y| - 1], account);
    }
  }

  lemma PostedWithout(ledger: seq<LedgerRow>, p: nat, account: int)
    requires p < |ledger|
    ensures Posted(ledger, account) == Posted(Without(ledger, p), account) + Share(ledger[p], account)
  {
    var left, right := ledger[..p], ledger[p + 1..];
    assert ledger == left + [ledger[p]] + right;
    PostedConcat(left + [ledger[p]], right, account);
    PostedConcat(left, [ledger[p]], account);
    PostedConcat(left, right, account);
  }

  lemma {:induction false} PostedOfBag(x: seq<LedgerRow>, y: seq<LedgerRow>, account: int)
    requires multiset(x) == multiset(y)
    ensures Posted(x, account) == Posted(y, account)
    decreases x
  {
    EmptyMultiset(x);
    EmptyMultiset(y);
    if x != [] {
      var p := MatchHead(x, y);
      PostedOfBag(x[1..], Without(y, p), account);
      PostedWithout(y, p, account);
      PostedWithout(x, 0, account);
      assert Without(x, 0) == x[1..];
    }
  }

  lemma {:induction false} PostedPairs(n: nat, a: T.Account)
    ensures Posted(Pairs(n), a + 1) == T.Drift(n, a)
  {
    if n > 0 {
      PostedPairs(n - 1, a);
      PostedConcat(Pairs(n - 1), [Debit(n), Credit(n)], a + 1);
      PostedConcat([Debit(n)], [Credit(n)], a + 1);
    }
  }

  /** In an exact database each balance is the opening balance plus what the ledger posts to
      the account, and all postings cancel. */
  lemma LedgerBalances(t: Tables)
    requires Exact(t)
    ensures forall a: T.Account :: t.accounts[a].balance == Int(T.OPENING + Posted(t.ledger, a + 1))
    ensures Posted(t.ledger, 1) + Posted(t.ledger, 2) + Posted(t.ledger, 3) == 0
  {
    var n := |t.transfers|;
    forall a: T.Account ensures Posted(t.ledger, a + 1) == T.Drift(n, a) {
      PostedOfBag(t.ledger, Pairs(n), a + 1);
      PostedPairs(n, a);
    }
    T.SumUpTo(n, 0);
    T.SumUpTo(n, 1);
    T.SumUpTo(n, 2);
    T.TotalIsConstant(T.UpTo(n));
    assert Posted(t.ledger, (0 as T.Account) + 1) == T.Drift(n, 0) &&
            Posted(t.ledger, (1 as T.Account) + 1) == T.Drift(n, 1)
           && Posted(t.ledger, (2 as T.Account) + 1) == T.Drift(n, 2);
  }

  // ------------------------------------------------------------------------ the blind spots

  /** Accounts and transfers as `n` transfers leave them, with some ledger. */
  function After(n: nat, ledger: seq<LedgerRow>, number: string -> Option<int>): Tables
  {
    Tables(seq(3, a requires 0 <= a < 3 => AccountRow(a + 1, Int(T.OPENING + T.Drift(n, a)))),
           seq(n, k requires 0 <= k < n => Expected(k + 1)), ledger, number, true)
  }

  /** The accounts and the transfers of `n` transfers can all be referred to. */
  lemma KeysOfAfter(n: nat, ledger: seq<LedgerRow>, number: string -> Option<int>)
    requires forall l | l in ledger :: l.tx != Null ==> Key(l.tx, number).Some? && 1 <= Key(l.tx, number).value <= n
    requires forall l | l in ledger :: Value(l.account).Int? && 1 <= Value(l.account).n <= 3
    ensures KeysHold(After(n, ledger, number))
  {
    var t := After(n, ledger, number);
    forall a | 1 <= a <= 3 ensures a in AccountIds(t.accounts) {
      assert t.accounts[a - 1] in t.accounts;
    }
    forall k | 1 <= k <= n ensures k in TransferIds(t.transfers) {
      assert t.transfers[k - 1] in t.transfers;
    }
  }

  lemma MatchesFirst(n: nat, ledger: seq<LedgerRow>, number: string -> Option<int>)
    requires forall l | l in ledger ::
               Key(l.tx, number) == None || (Key(l.tx, number) == Some(1) && Mismatch(l, Expected(1)) != True)
    ensures !AnyInvalid(After(n, ledger, number))
  {
  }

  /** With such tables the audit looks at nothing but the ledger. */
  lemma BlindTo(n: nat, ledger: seq<LedgerRow>, number: string -> Option<int>)
    requires KeysHold(After(n, ledger, number)) && !AnyInvalid(After(n, ledger, number))
    requires !AnyBadPair(ledger) && |ledger| == 2 * n && !AllIntegers(ledger)
    ensures Passes(After(n, ledger, number)) && !Exact(After(n, ledger, number))
  {
    AuditIsExact(After(n, ledger, number));
  }

  /** Two rows of one group with two accounts are one good pair, also behind other rows. */
  lemma OneMorePair(p: seq<LedgerRow>, x: LedgerRow, y: LedgerRow)
    requires !AnyBadPair(p) && forall l | l in p :: Value(l.tx) != Value(x.tx)
    requires Value(x.tx) == Value(y.tx)
    requires x.account != Null && y.account != Null && Value(x.account) != Value(y.account)
    ensures !AnyBadPair(p + [x, y])
  {
    var all := p + [x, y];
    forall l | l in all
      ensures |Group(all, Value(l.tx))| == 2 && |DistinctAccounts(Group(all, Value(l.tx)))| == 2
    {
      GroupOfTwoMore(p, x, y, Value(l.tx));
      if Value(l.tx) == Value(x.tx) {
        EmptyGroup(p, Value(x.tx));
        assert Group(all, Value(l.tx)) == [x, y];
        TwoRows([x, y], x, y);
      } else {
        assert l in p && Group(all, Value(l.tx)) == Group(p, Value(l.tx));
      }
    }
  }

  lemma EmptyGroup(ledger: seq<LedgerRow>, tx: Cell)
    requires forall l | l in ledger :: Value(l.tx) != tx
    ensures Group(ledger, tx) == []
  {
    if Group(ledger, tx) != [] { GroupMember(ledger, tx, Group(ledger, tx)[0]); }
  }

  /** Any row passes in place of the first debit that no query tells from it. */
  lemma DebitLikePasses(number: string -> Option<int>, x: LedgerRow)
    requires Key(x.tx, number) == Some(1) && Value(x.tx) == Int(1) && Value(x.account) == Int(2)
    requires Mismatch(x, Expected(1)) != True && !(x.tx.Int? && x.account.Int? && x.delta.Int?)
    ensures var t := After(1, [x, Credit(1)], number); Passes(t) && !Exact(t)
  {
    var y := Credit(1);
    var t := After(1, [x, y], number);
    assert y.tx == Int(1) && y.account == Int(3) && Mismatch(y, Expected(1)) == False;
    KeysOfAfter(1, [x, y], number);
    MatchesFirst(1, [x, y], number);
    OneMorePair([], x, y);
    assert [] + [x, y] == [x, y] == t.ledger && t.ledger[0] == x;
    BlindTo(1, [x, y], number);
  }

  /** A debit whose delta is NULL passes. */
  lemma NullDeltaPasses(number: string -> Option<int>)
    ensures var t := After(1, [Debit(1).(delta := Null), Credit(1)], number); Passes(t) && !Exact(t)
  {
    DebitLikePasses(number, Debit(1).(delta := Null));
  }

  /** Two rows that name no transfer pass in place of the transfer's own. */
  lemma NullTransactionPasses(number: string -> Option<int>)
    ensures var t := After(1, [LedgerRow(Null, Int(1), Int(0)), LedgerRow(Null, Int(2), Int(0))], number);
            Passes(t) && !Exact(t)
  {
    var x, y := LedgerRow(Null, Int(1), Int(0)), LedgerRow(Null, Int(2), Int(0));
    var t := After(1, [x, y], number);
    KeysOfAfter(1, [x, y], number);
    MatchesFirst(1, [x, y], number);
    OneMorePair([], x, y);
    assert [] + [x, y] == [x, y] == t.ledger && t.ledger[0] == x;
    BlindTo(1, [x, y], number);
  }

  /** An account stored as a real passes: to every comparison it is the integer. */
  lemma RealAccountPasses(number: string -> Option<int>)
    ensures var t := After(1, [Debit(1).(account := Real(2.0)), Credit(1)], number); Passes(t) && !Exact(t)
  {
    var x := Debit(1).(account := Real(2.0));
    assert Value(x.account) == Int(2);
    DebitLikePasses(number, x);
  }

  /** The rows of transfer 1 twice, once under the number and once under a text. */
  function TwiceNamed(): seq<LedgerRow>
  {
    [Debit(1), Credit(1), Debit(1).(tx := Text("1")), Credit(1).(tx := Text("1"))]
  }

  lemma TwiceNamedPairs()
    ensures !AnyBadPair(TwiceNamed()) && Group(TwiceNamed(), Int(2)) == []
  {
    var first, x, y := [Debit(1), Credit(1)], Debit(1).(tx := Text("1")), Credit(1).(tx := Text("1"));
    OneMorePair([], Debit(1), Credit(1));
    assert [] + first == first;
    OneMorePair(first, x, y);
    assert TwiceNamed() == first + [x, y];
    EmptyGroup(TwiceNamed(), Int(2));
  }

  lemma TwiceNamedMatches(number: string -> Option<int>)
    requires number("1") == Some(1)
    ensures KeysHold(After(2, TwiceNamed(), number)) && !AnyInvalid(After(2, TwiceNamed(), number))
  {
    KeysOfAfter(2, TwiceNamed(), number);
    MatchesFirst(2, TwiceNamed(), number);
  }

  /** Two rows that name transfer 1 by a text pass in place of the rows of transfer 2: the join
      and the foreign key read the text as a number, the groups do not. */
  lemma TextTransactionPasses(number: string -> Option<int>)
    requires number("1") == Some(1)
    ensures var t := After(2, TwiceNamed(), number);
            Passes(t) && !Exact(t) && Group(t.ledger, Int(2)) == []
  {
    TwiceNamedPairs();
    TwiceNamedMatches(number);
    assert TwiceNamed()[2].tx.Text?;
    BlindTo(2, TwiceNamed(), number);
  }
}
