/** Unbounded non-negative integers used as bit sets, with the four operations the
    history search applies to them: `m & (1 << i)`, `a & ~m`, `m | (1 << i)` and
    `(1 << n) - 1`.  Every lemma relates an operation on numbers to the set
    `Members(m)` of the positions that are on. */
module Bitmask {

  function Pow2(n: nat): (r: nat)
    ensures r > 0
  {
    if n == 0 then 1 else 2 * Pow2(n - 1)
  }

  predicate Bit(m: nat, i: nat)
  {
    if i == 0 then m % 2 == 1 else Bit(m / 2, i - 1)
  }

  // 1 << i
  function Shift(i: nat): nat
  {
    Pow2(i)
  }

  // a | b
  function Or(a: nat, b: nat): nat
    decreases a + b
  {
    if a == 0 && b == 0 then 0
    else 2 * Or(a / 2, b / 2) + (if a % 2 == 1 || b % 2 == 1 then 1 else 0)
  }

  // a & b
  function And(a: nat, b: nat): nat
    decreases a + b
  {
    if a == 0 && b == 0 then 0
    else 2 * And(a / 2, b / 2) + (if a % 2 == 1 && b % 2 == 1 then 1 else 0)
  }

  // a & ~b
  function AndNot(a: nat, b: nat): nat
  {
    if a == 0 then 0
    else 2 * AndNot(a / 2, b / 2) + (if a % 2 == 1 && b % 2 == 0 then 1 else 0)
  }

  lemma {:induction false} ZeroHasNoBit(i: nat)
    ensures !Bit(0, i)
  {
    if i > 0 { ZeroHasNoBit(i - 1); }
  }

  lemma {:induction false} BitBound(m: nat, i: nat)
    requires Bit(m, i)
    ensures i < Pow2(i) <= m
  {
    if i > 0 { BitBound(m / 2, i - 1); }
  }

  /** The positions that are on. */
  function Members(m: nat): (s: set<nat>)
    ensures forall i: nat :: i in s <==> Bit(m, i)
  {
    assert forall i: nat :: Bit(m, i) ==> i < m by {
      forall i: nat | Bit(m, i) ensures i < m { BitBound(m, i); }
    }
    set i: nat | i < m && Bit(m, i)
  }

  lemma {:induction false} OrBit(a: nat, b: nat, i: nat)
    ensures Bit(Or(a, b), i) <==> Bit(a, i) || Bit(b, i)
    decreases i
  {
    if a == 0 && b == 0 {
      ZeroHasNoBit(i);
    } else if i > 0 {
      assert Or(a, b) / 2 == Or(a / 2, b / 2);
      OrBit(a / 2, b / 2, i - 1);
    }
  }

  lemma {:induction false} AndBit(a: nat, b: nat, i: nat)
    ensures Bit(And(a, b), i) <==> Bit(a, i) && Bit(b, i)
    decreases i
  {
    if a == 0 && b == 0 {
      ZeroHasNoBit(i);
    } else if i > 0 {
      assert And(a, b) / 2 == And(a / 2, b / 2);
      AndBit(a / 2, b / 2, i - 1);
    }
  }

  lemma {:induction false} AndNotBit(a: nat, b: nat, i: nat)
    ensures Bit(AndNot(a, b), i) <==> Bit(a, i) && !Bit(b, i)
    decreases i
  {
    if a == 0 {
      ZeroHasNoBit(i);
    } else if i > 0 {
      assert AndNot(a, b) / 2 == AndNot(a / 2, b / 2);
      AndNotBit(a / 2, b / 2, i - 1);
    }
  }

  lemma {:induction false} ShiftBit(j: nat, i: nat)
    ensures Bit(Shift(j), i) <==> i == j
    decreases i
  {
    if i == 0 {
    } else if j == 0 {
      ZeroHasNoBit(i - 1);
    } else {
      assert Pow2(j) / 2 == Pow2(j - 1);
      ShiftBit(j - 1, i - 1);
    }
  }

  /** A number with some bit on, found by halving. */
  lemma {:induction false} SomeBit(m: nat) returns (i: nat)
    requires m != 0
    ensures Bit(m, i)
  {
    if m % 2 == 1 {
      i := 0;
    } else {
      var k := SomeBit(m / 2);
      i := k + 1;
    }
  }

  /** A number is zero exactly when no position is on, so a test `x != 0` is a test
      that some position is on. */
  lemma NonZero(m: nat)
    ensures m != 0 <==> Members(m) != {}
  {
    if m != 0 {
      var i := SomeBit(m);
      assert i in Members(m);
    } else {
      forall i: nat ensures i !in Members(m) { ZeroHasNoBit(i); }
    }
  }

  lemma TestBit(m: nat, i: nat)
    ensures And(m, Shift(i)) != 0 <==> i in Members(m)
  {
    NonZero(And(m, Shift(i)));
    forall k: nat ensures k in Members(And(m, Shift(i))) <==> k == i && i in Members(m) {
      AndBit(m, Shift(i), k);
      ShiftBit(i, k);
    }
    assert i in Members(m) ==> i in Members(And(m, Shift(i)));
  }

  lemma TestSubset(a: nat, m: nat)
    ensures AndNot(a, m) == 0 <==> Members(a) <= Members(m)
  {
    NonZero(AndNot(a, m));
    forall k: nat ensures k in Members(AndNot(a, m)) <==> k in Members(a) && k !in Members(m) {
      AndNotBit(a, m, k);
    }
    assert Members(AndNot(a, m)) == Members(a) - Members(m);
  }

  lemma SetBit(m: nat, i: nat)
    ensures Members(Or(m, Shift(i))) == Members(m) + {i}
  {
    forall k: nat ensures k in Members(Or(m, Shift(i))) <==> k in Members(m) || k == i {
      OrBit(m, Shift(i), k);
      ShiftBit(i, k);
    }
  }

  lemma {:induction false} SetBitGrows(m: nat, i: nat)
    requires !Bit(m, i)
    ensures m < Or(m, Shift(i))
    decreases i
  {
    if i > 0 {
      assert Shift(i) / 2 == Shift(i - 1);
      SetBitGrows(m / 2, i - 1);
    } else {
      OrZero(m / 2);
    }
  }

  lemma {:induction false} OrZero(m: nat)
    ensures Or(m, 0) == m
  {
    if m > 0 { OrZero(m / 2); }
  }

  /** Adding a power of two beyond a number turns on exactly that position. */
  lemma {:induction false} AddPower(a: nat, k: nat, i: nat)
    requires a < Pow2(k)
    ensures Bit(a + Pow2(k), i) <==> Bit(a, i) || i == k
    decreases k
  {
    if k == 0 {
      if i > 0 { ZeroHasNoBit(i - 1); }
    } else if i > 0 {
      assert (a + Pow2(k)) / 2 == a / 2 + Pow2(k - 1);
      AddPower(a / 2, k - 1, i - 1);
    }
  }

  lemma {:induction false} FullBit(n: nat, i: nat)
    ensures Bit(Pow2(n) - 1, i) <==> i < n
    decreases n
  {
    if n == 0 {
      ZeroHasNoBit(i);
    } else if i > 0 {
      assert (Pow2(n) - 1) / 2 == Pow2(n - 1) - 1;
      FullBit(n - 1, i - 1);
    }
  }

  /** Two numbers with the same positions on are equal. */
  lemma {:induction false} Extensional(a: nat, b: nat)
    requires Members(a) == Members(b)
    ensures a == b
    decreases a + b
  {
    if a != 0 || b != 0 {
      forall i: nat ensures Bit(a / 2, i) <==> Bit(b / 2, i) {
        assert Bit(a, i + 1) <==> i + 1 in Members(a);
        assert Bit(b, i + 1) <==> i + 1 in Members(b);
      }
      assert Members(a / 2) == Members(b / 2);
      Extensional(a / 2, b / 2);
      assert Bit(a, 0) <==> 0 in Members(a);
      assert Bit(b, 0) <==> 0 in Members(b);
    }
  }

  function Indices(n: nat): (s: set<nat>)
    ensures forall i: nat :: i in s <==> i < n
    ensures |s| == n
  {
    if n == 0 then {} else Indices(n - 1) + {n - 1}
  }

  lemma FullMembers(n: nat)
    ensures Members(Pow2(n) - 1) == Indices(n)
  {
    forall i: nat ensures i in Members(Pow2(n) - 1) <==> i in Indices(n) { FullBit(n, i); }
  }
}
