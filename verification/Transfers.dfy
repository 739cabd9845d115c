/** The transfer workload: identifiers 1, 2, 3, ... each prescribe one transfer between three
    accounts that start with a million each. */
module Transfers {
  import opened Common
  import opened Division

  const OPENING := 1000000

  /** Accounts are numbered 0, 1, 2 here; the tables number them from 1. */
  type Account = a: nat | a < 3

  function Source(id: nat): Account
  {
    id % 3
  }

  function Target(id: nat): Account
  {
    (Source(id) + 1) % 3
  }

  function Amount(id: nat): (r: int)
    ensures 1 <= r <= 17
  {
    id % 17 + 1
  }

  /** What transfer `id` does to an account. */
  function Delta(id: nat, a: Account): int
  {
    if a == Source(id) then -Amount(id) else if a == Target(id) then Amount(id) else 0
  }

  /** What transfers 1 to `n` do to an account. */
  function Drift(n: nat, a: Account): int
  {
    if n == 0 then 0 else Drift(n - 1, a) + Delta(n, a)
  }

  // ----------------------------------------------------------------------- the period of 51

  lemma Shifted(x: nat, q: nat, n: nat)
    requires n > 0
    ensures (x + q * n) % n == x % n
  {
    assert x + q * n == (x / n + q) * n + x % n by {
      assert (x / n + q) * n == x / n * n + q * n;
    }
    Unique(x + q * n, x / n + q, x % n, n);
  }

  lemma AmountRepeats(id: nat, q: nat)
    ensures Amount(id + 17 * q) == Amount(id)
  {
    Shifted(id, q, 17);
  }

  /** The amounts of `k` transfers that are three apart, from `id` on. */
  function EveryThird(id: nat, k: nat): int
  {
    if k == 0 then 0 else EveryThird(id, k - 1) + Amount(id + 3 * (k - 1))
  }

  lemma {:induction false} EveryThirdShift(id: nat, k: nat)
    ensures EveryThird(id + 3, k) == EveryThird(id, k) - Amount(id) + Amount(id + 3 * k)
  {
    if k > 0 { EveryThirdShift(id, k - 1); }
  }

  lemma {:induction false} EveryThirdRepeats(id: nat, k: nat)
    ensures EveryThird(id + 17, k) == EveryThird(id, k)
  {
    if k > 0 {
      EveryThirdRepeats(id, k - 1);
      AmountRepeats(id + 3 * (k - 1), 1);
    }
  }

  /** 0 + 3 + 6 + ... with `k` terms. */
  function Ramp(k: nat): nat
  {
    if k == 0 then 0 else Ramp(k - 1) + 3 * (k - 1)
  }

  lemma {:induction false} RampClosed(k: nat)
    ensures 2 * Ramp(k) == 3 * k * (k - 1)
  {
    if k > 0 { RampClosed(k - 1); }
  }

  function Above(k: nat, bound: nat): nat
  {
    if k > bound then k - bound else 0
  }

  /** From zero on the remainders climb three times. */
  lemma {:induction false} FromZero(k: nat)
    requires k <= 17
    ensures EveryThird(0, k) == k + Ramp(k) - 17 * Above(k, 6) - 17 * Above(k, 12)
  {
    if k > 0 {
      FromZero(k - 1);
      var wraps := if k > 12 then 2 else if k > 6 then 1 else 0;
      Unique(3 * (k - 1), wraps, 3 * (k - 1) - 17 * wraps, 17);
    }
  }

  /** Seventeen in a row are worth the same wherever they start: six steps of three and one of
      seventeen differ by one. */
  lemma {:induction false} Seventeen(id: nat)
    ensures EveryThird(id, 17) == 153
  {
    if id == 0 {
      FromZero(17);
      RampClosed(17);
    } else {
      Seventeen(id - 1);
      SixSteps(id - 1, 6);
      EveryThirdRepeats(id, 17);
    }
  }

  lemma {:induction false} SixSteps(id: nat, steps: nat)
    ensures EveryThird(id + 3 * steps, 17) == EveryThird(id, 17)
  {
    if steps > 0 {
      SixSteps(id, steps - 1);
      EveryThirdShift(id + 3 * (steps - 1), 17);
      AmountRepeats(id + 3 * (steps - 1), 3);
    }
  }

  /** What transfers 1 to `n` take from an account. */
  function Spent(n: nat, a: Account): int
  {
    if n == 0 then 0 else Spent(n - 1, a) + if Source(n) == a then Amount(n) else 0
  }

  function Previous(a: Account): Account
  {
    (a + 2) % 3
  }

  /** An account receives what the account before it spends. */
  lemma {:induction false} DriftIsSpending(n: nat, a: Account)
    ensures Drift(n, a) == Spent(n, Previous(a)) - Spent(n, a)
  {
    if n > 0 { DriftIsSpending(n - 1, a); }
  }

  /** The first transfer of an account, as a debit. */
  function FirstDebit(a: Account): nat
  {
    if a == 0 then 3 else a
  }

  lemma SourcesOfThree(k: nat)
    requires k > 0
    ensures Source(3 * k) == 0 && Source(3 * k - 1) == 2 && Source(3 * k - 2) == 1
  {
    Unique(3 * k, k, 0, 3);
    Unique(3 * k - 1, k - 1, 2, 3);
    Unique(3 * k - 2, k - 1, 1, 3);
  }

  lemma {:induction false} SpentByThrees(k: nat, a: Account)
    ensures Spent(3 * k, a) == EveryThird(FirstDebit(a), k)
  {
    if k > 0 {
      SpentByThrees(k - 1, a);
      SourcesOfThree(k);
      var n := 3 * k;
      assert Spent(n - 1, a) == Spent(n - 2, a) + if Source(n - 1) == a then Amount(n - 1) else 0;
    }
  }

  /** In any 51 transfers each account spends exactly 153. */
  lemma {:induction false} SpentPerPeriod(n: nat, a: Account)
    ensures Spent(n + 51, a) == Spent(n, a) + 153
  {
    if n == 0 {
      SpentByThrees(17, a);
      Seventeen(FirstDebit(a));
    } else {
      SpentPerPeriod(n - 1, a);
      Shifted(n, 17, 3);
      AmountRepeats(n, 3);
    }
  }

  lemma {:induction false} SpentGrows(m: nat, n: nat, a: Account)
    requires m <= n
    ensures Spent(m, a) <= Spent(n, a)
    decreases n - m
  {
    if m < n { SpentGrows(m, n - 1, a); }
  }

  /** Balances come back after every 51 transfers. */
  lemma DriftRepeats(n: nat, a: Account)
    ensures Drift(n + 51, a) == Drift(n, a)
  {
    DriftIsSpending(n, a);
    DriftIsSpending(n + 51, a);
    SpentPerPeriod(n, a);
    SpentPerPeriod(n, Previous(a));
  }

  lemma SpentInPeriod(n: nat, a: Account)
    requires n <= 51
    ensures 0 <= Spent(n, a) <= 153
  {
    SpentGrows(0, n, a);
    SpentGrows(n, 51, a);
    SpentPerPeriod(0, a);
  }

  /** However many transfers there are, no balance moves further than 153. */
  lemma {:induction false} DriftIsSmall(n: nat, a: Account)
    ensures -153 <= Drift(n, a) <= 153
  {
    if n < 51 {
      DriftIsSpending(n, a);
      SpentInPeriod(n, a);
      SpentInPeriod(n, Previous(a));
    } else {
      DriftIsSmall(n - 51, a);
      DriftRepeats(n - 51, a);
    }
  }

  // -------------------------------------------------------------------- any order, any part

  /** What a list of transfers does to an account. */
  function Sum(ids: seq<nat>, a: Account): int
  {
    if ids == [] then 0 else Sum(ids[..|ids| - 1], a) + Delta(ids[|ids| - 1], a)
  }

  lemma {:induction false} SumConcat(xs: seq<nat>, ys: seq<nat>, a: Account)
    ensures Sum(xs + ys, a) == Sum(xs, a) + Sum(ys, a)
  {
    if ys == [] {
      assert xs + ys == xs;
    } else {
      var all := xs + ys;
      assert all[..|all| - 1] == xs + ys[..|ys| - 1];
      SumConcat(xs, ys[..|ys| - 1], a);
    }
  }

  lemma SumWithout(ids: seq<nat>, p: nat, a: Account)
    requires p < |ids|
    ensures Sum(ids, a) == Sum(Without(ids, p), a) + Delta(ids[p], a)
  {
    var left, right := ids[..p], ids[p + 1..];
    assert ids == left + [ids[p]] + right;
    SumConcat(left + [ids[p]], right, a);
    SumConcat(left, [ids[p]], a);
    SumConcat(left, right, a);
  }

  /** The order of the transfers does not matter. */
  lemma {:induction false} SumOfBag(xs: seq<nat>, ys: seq<nat>, a: Account)
    requires multiset(xs) == multiset(ys)
    ensures Sum(xs, a) == Sum(ys, a)
    decreases xs
  {
    EmptyMultiset(xs);
    EmptyMultiset(ys);
    if xs != [] {
      var p := MatchHead(xs, ys);
      SumOfBag(xs[1..], Without(ys, p), a);
      SumWithout(ys, p, a);
      SumWithout(xs, 0, a);
      assert Without(xs, 0) == xs[1..];
    }
  }

  /** 1, 2, ..., n. */
  function UpTo(n: nat): (s: seq<nat>)
    ensures |s| == n && forall k | 0 <= k < n :: s[k] == k + 1
  {
    seq(n, k requires 0 <= k < n => k + 1)
  }

  lemma {:induction false} SumUpTo(n: nat, a: Account)
    ensures Sum(UpTo(n), a) == Drift(n, a)
  {
    if n > 0 {
      assert UpTo(n)[..n - 1] == UpTo(n - 1);
      SumUpTo(n - 1, a);
    }
  }

  lemma {:induction false} SumIsBounded(ids: seq<nat>, a: Account)
    ensures -17 * |ids| <= Sum(ids, a) <= 17 * |ids|
  {
    if ids != [] { SumIsBounded(ids[..|ids| - 1], a); }
  }

  /** A wave: at most twelve transfers on top of 1 to `n`. */
  predicate Wave(ids: seq<nat>, n: nat)
  {
    |ids| <= 12 && forall k | 0 <= k < |ids| :: n < ids[k] <= n + 12
  }

  /** The CHECK on balances never fires: with transfers 1 to `n` applied, any part of the next
      wave, in any order, and even half of one further transfer, leaves every account
      positive. */
  lemma NeverNegative(n: nat, applied: seq<nat>, half: nat, a: Account)
    requires Wave(applied + [half], n)
    ensures OPENING + Drift(n, a) + Sum(applied, a) > 0
    ensures OPENING + Drift(n, a) + Sum(applied, a) - (if a == Source(half) then Amount(half) else 0) > 0
  {
    DriftIsSmall(n, a);
    SumIsBounded(applied, a);
  }

  lemma {:induction false} TotalIsConstant(ids: seq<nat>)
    ensures Sum(ids, 0) + Sum(ids, 1) + Sum(ids, 2) == 0
  {
    if ids != [] { TotalIsConstant(ids[..|ids| - 1]); }
  }

  // ----------------------------------------------------------- four computations of balances

  ghost predicate Balances(b: seq<int>, ids: seq<nat>)
  {
    |b| == 3 && forall a: Account :: b[a] == OPENING + Sum(ids, a)
  }

  /** Two correct computations over the same transfers agree, in whatever order each took
      them, and the accounts always hold three million together. */
  lemma BalancesAgree(b: seq<int>, c: seq<int>, xs: seq<nat>, ys: seq<nat>)
    requires Balances(b, xs) && Balances(c, ys) && multiset(xs) == multiset(ys)
    ensures b == c && b[0] + b[1] + b[2] == 3000000
  {
    forall k | 0 <= k < 3 ensures b[k] == c[k] {
      var a: Account := k;
      SumOfBag(xs, ys, a);
      assert b[a] == OPENING + Sum(xs, a) && c[a] == OPENING + Sum(ys, a);
    }
    TotalIsConstant(xs);
    assert b[0 as Account] == OPENING + Sum(xs, 0) && b[1 as Account] == OPENING + Sum(xs, 1)
           && b[2 as Account] == OPENING + Sum(xs, 2);
  }

  /** One transfer's effect on an array of balances. */
  method Transfer(b: array<int>, id: nat, amount: int)
    requires b.Length == 3 && amount == Amount(id)
    modifies b
    ensures forall a: Account :: b[a] == old(b[a]) + Delta(id, a)
  {
    var source := id % 3;
    b[source] := b[source] - amount;
    b[(source + 1) % 3] := b[(source + 1) % 3] + amount;
  }

  /** The fold of `verify`, over the acknowledged transfers in the order they were recorded. */
  method VerifyBalances(transfers: seq<(nat, int)>, ghost ids: seq<nat>) returns (balances: seq<int>)
    requires |ids| == |transfers| && forall k | 0 <= k < |ids| :: transfers[k] == (ids[k], Amount(ids[k]))
    ensures Balances(balances, ids)
  {
    var b := new int[3](_ => OPENING);
    var i := 0;
    while i < |transfers|
      invariant i <= |transfers| && Balances(b[..], ids[..i])
    {
      Transfer(b, transfers[i].0, transfers[i].1);
      assert ids[..i + 1][..i] == ids[..i];
      i := i + 1;
    }
    assert ids[..i] == ids;
    balances := b[..];
  }

  /** The balance of the first account that the reads expect. */
  function ClosedForm(ids: seq<nat>): int
  {
    if ids == [] then OPENING
    else
      var id := ids[|ids| - 1];
      ClosedForm(ids[..|ids| - 1]) +
      (if id % 3 == 0 || id % 3 == 2 then Amount(id) * (if (id % 3 + 1) % 3 == 0 then 1 else -1) else 0)
  }

  lemma {:induction false} ClosedFormAgrees(ids: seq<nat>)
    ensures ClosedForm(ids) == OPENING + Sum(ids, 0)
  {
    if ids != [] { ClosedFormAgrees(ids[..|ids| - 1]); }
  }

  // ------------------------------------------------------------------------------- the soak

  datatype Request = Request(client: nat, sequence: nat, id: nat)

  /** Request number `k` of a run, counting from zero. */
  function Prescribed(k: nat): Request
  {
    Request(100 + k % 12, k / 12 + 1, k + 1)
  }

  /** How many of the first `n` requests belong to client `c`. */
  function Issued(n: nat, c: nat): nat
    requires c < 12
  {
    (n + 11 - c) / 12
  }

  lemma IssueOne(n: nat, c: nat)
    requires c < 12
    ensures Issued(n + 1, c) == if n % 12 == c then n / 12 + 1 else Issued(n, c)
    ensures n % 12 == c ==> Issued(n, c) == n / 12
  {
    var q, r := n / 12, n % 12;
    var m := if r >= c then q + 1 else q;
    assert n == q * 12 + r;
    if r == c {
      Unique(n + 11 - c, q, 11, 12);
      Unique(n + 12 - c, q + 1, 0, 12);
    } else if r > c {
      Unique(n + 11 - c, q + 1, r - c - 1, 12);
      Unique(n + 12 - c, q + 1, r - c, 12);
    } else {
      Unique(n + 11 - c, q, r + 11 - c, 12);
      Unique(n + 12 - c, q, r + 12 - c, 12);
    }
  }

  function Total(draws: seq<nat>): nat
  {
    if draws == [] then 0 else Total(draws[..|draws| - 1]) + draws[|draws| - 1]
  }

  /** One drawn write: the next number of its session, and its effect on the balances. */
  method Issue(b: array<int>, s: array<nat>, id: nat) returns (r: Request)
    requires id > 0 && b.Length == 3 && s.Length == 12
    requires forall c: nat | c < 12 :: s[c] == Issued(id - 1, c)
    requires Balances(b[..], UpTo(id - 1))
    modifies b, s
    ensures r == Prescribed(id - 1)
    ensures forall c: nat | c < 12 :: s[c] == Issued(id, c)
    ensures Balances(b[..], UpTo(id))
  {
    var client := (id - 1) % 12;
    forall c: nat | c < 12 ensures Issued(id, c) == if c == client then s[client] + 1 else s[c] {
      IssueOne(id - 1, c);
    }
    IssueOne(id - 1, client);
    s[client] := s[client] + 1;
    r := Request(100 + client, s[client], id);
    Transfer(b, id, id % 17 + 1);
    assert UpTo(id)[..id - 1] == UpTo(id - 1);
  }

  /** The writes of one round. */
  method Round(b: array<int>, s: array<nat>, writes: nat, draw: nat) returns (requests: seq<Request>)
    requires b.Length == 3 && s.Length == 12
    requires forall c: nat | c < 12 :: s[c] == Issued(writes, c)
    requires Balances(b[..], UpTo(writes))
    modifies b, s
    ensures |requests| == draw && forall k | 0 <= k < draw :: requests[k] == Prescribed(writes + k)
    ensures forall c: nat | c < 12 :: s[c] == Issued(writes + draw, c)
    ensures Balances(b[..], UpTo(writes + draw))
  {
    requests := [];
    while |requests| < draw
      invariant |requests| <= draw
      invariant forall k | 0 <= k < |requests| :: requests[k] == Prescribed(writes + k)
      invariant forall c: nat | c < 12 :: s[c] == Issued(writes + |requests|, c)
      invariant Balances(b[..], UpTo(writes + |requests|))
    {
      var request := Issue(b, s, writes + |requests| + 1);
      requests := requests + [request];
    }
  }

  /** The generator of the soak: `draws` says how many writes each round draws.  The balances
      are those of transfers 1 to n, and every session is numbered without a gap. */
  method Soak(draws: seq<nat>) returns (balances: seq<int>, sequences: seq<nat>, requests: seq<Request>)
    ensures |requests| == Total(draws)
    ensures forall k | 0 <= k < |requests| :: requests[k] == Prescribed(k)
    ensures |sequences| == 12 && forall c: nat | c < 12 :: sequences[c] == Issued(|requests|, c)
    ensures Balances(balances, UpTo(|requests|))
  {
    var b, s := new int[3](_ => OPENING), new nat[12](_ => 0);
    requests := [];
    var writes, i := 0, 0;
    assert forall c: nat | c < 12 :: Issued(0, c) == 0;
    while i < |draws|
      invariant i <= |draws| && |requests| == writes == Total(draws[..i])
      invariant forall k | 0 <= k < |requests| :: requests[k] == Prescribed(k)
      invariant forall c: nat | c < 12 :: s[c] == Issued(writes, c)
      invariant Balances(b[..], UpTo(writes))
    {
      var wave := Round(b, s, writes, draws[i]);
      requests := requests + wave;
      assert draws[..i + 1][..i] == draws[..i];
      assert Total(draws[..i + 1]) == writes + |wave|;
      writes := writes + |wave|;
      i := i + 1;
    }
    assert draws[..i] == draws;
    balances, sequences := b[..], s[..];
  }

  /** No two requests share an identity, a round of twelve has at most one per session, and
      each session counts 1, 2, 3, ... */
  lemma SessionsAreNumbered(k: nat, l: nat)
    ensures k != l ==> Prescribed(k).client != Prescribed(l).client || Prescribed(k).sequence != Prescribed(l).sequence
    ensures k < l < k + 12 ==> Prescribed(k).client != Prescribed(l).client
    ensures Prescribed(k + 12) == Request(Prescribed(k).client, Prescribed(k).sequence + 1, k + 13)
    ensures k < 12 ==> Prescribed(k).sequence == 1
  {
    assert k == k / 12 * 12 + k % 12 && l == l / 12 * 12 + l % 12;
    Unique(k + 12, k / 12 + 1, k % 12, 12);
  }

  /** What the reads of the soak expect of the first account is what the closed form says. */
  lemma SoakMeetsClosedForm(balances: seq<int>, n: nat, acknowledged: seq<nat>)
    requires Balances(balances, UpTo(n)) && multiset(acknowledged) == multiset(UpTo(n))
    ensures balances[0] == ClosedForm(acknowledged) == OPENING + Drift(n, 0)
  {
    ClosedFormAgrees(acknowledged);
    SumOfBag(acknowledged, UpTo(n), 0);
    SumUpTo(n, 0);
    assert balances[0 as Account] == OPENING + Sum(UpTo(n), 0);
  }
}
