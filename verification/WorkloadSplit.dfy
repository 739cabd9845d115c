/** The generator of multi-statement updates: an aligned block of keys is split into a number
    of statements, and the checks trust how many row updates that makes. */
module WorkloadSplit {
  import opened Division

  const TABLE: nat := 1024

  /** The keys from `first` up to but not including `last`. */
  datatype Piece = Piece(first: nat, last: nat)

  function Max(a: nat, b: nat): nat
  {
    if a < b then b else a
  }

  /** Where statement `s` of `n` starts within a block of `rows` keys. */
  function Bound(s: nat, rows: nat, n: nat): nat
    requires n > 0
  {
    s * rows / n
  }

  /** The piece of statement `s`; never empty. */
  function PieceOf(key: nat, s: nat, rows: nat, n: nat): Piece
    requires n > 0
  {
    var first, last := key + Bound(s, rows, n), key + Bound(s + 1, rows, n);
    Piece(first, if first == last then first + 1 else last)
  }

  /** A piece starts and ends at the s-th and the next of n equal cuts, rounded down, and holds
      one key where the two fall together. */
  lemma PieceMeaning(key: nat, s: nat, rows: nat, n: nat)
    requires n > 0
    ensures var first, last := key + s * rows / n, key + (s + 1) * rows / n;
            PieceOf(key, s, rows, n) == if first == last then Piece(first, first + 1) else Piece(first, last)
  {
  }

  // --------------------------------------------------------------------------- the bounds

  lemma Multiples(a: nat, b: nat, n: nat)
    ensures a <= b ==> a * n <= b * n
    ensures a < b ==> a * n + n <= b * n
  {
    if a < b {
      SumTimes(a, b - a - 1, n);
      SumTimes(a + (b - a - 1), 1, n);
    }
  }

  lemma SumTimes(a: nat, d: nat, n: nat)
    ensures (a + d) * n == a * n + d * n && d * n >= 0
  {
  }

  lemma DivAtLeast(x: nat, q: nat, n: nat)
    requires n > 0 && q * n <= x
    ensures q <= x / n
  {
    assert x == x / n * n + x % n;
    Multiples(x / n, q, n);
  }

  lemma DivAtMost(x: nat, q: nat, n: nat)
    requires n > 0 && x < q * n + n
    ensures x / n <= q
  {
    assert x == x / n * n + x % n;
    Multiples(q, x / n, n);
  }

  lemma BoundStep(s: nat, rows: nat, n: nat)
    requires n > 0
    ensures Bound(s, rows, n) <= Bound(s + 1, rows, n)
    ensures rows <= n ==> Bound(s + 1, rows, n) <= Bound(s, rows, n) + 1
    ensures n <= rows ==> Bound(s, rows, n) + 1 <= Bound(s + 1, rows, n)
  {
    var q := Bound(s, rows, n);
    assert s * rows == q * n + s * rows % n;
    assert (s + 1) * rows == s * rows + rows;
    DivAtLeast((s + 1) * rows, q, n);
    assert (q + 1) * n == q * n + n;
    if rows <= n { DivAtMost((s + 1) * rows, q + 1, n); }
    if n <= rows { DivAtLeast((s + 1) * rows, q + 1, n); }
  }

  lemma BoundEnds(rows: nat, n: nat)
    requires n > 0
    ensures Bound(0, rows, n) == 0 && Bound(n, rows, n) == rows
  {
    Unique(n * rows, rows, 0, n);
    Unique(0, 0, 0, n);
  }

  lemma {:induction false} BoundsGrow(s: nat, t: nat, rows: nat, n: nat)
    requires n > 0 && s <= t
    ensures Bound(s, rows, n) <= Bound(t, rows, n)
    decreases t - s
  {
    if s < t {
      BoundStep(s, rows, n);
      BoundsGrow(s + 1, t, rows, n);
    }
  }

  /** Before the end of the statements there is room in the block. */
  lemma BoundInside(s: nat, rows: nat, n: nat)
    requires rows > 0 && s < n
    ensures Bound(s, rows, n) < rows
  {
    assert s * rows + rows == (s + 1) * rows;
    Multiples(s + 1, n, rows);
    assert (rows - 1) * n + n == n * rows;
    Multiples(s, s + 1, rows);
    DivAtMost(s * rows, rows - 1, n);
  }

  // ---------------------------------------------------------------------------- the pieces

  /** The loop of `workload` over the statements of one write. */
  method Split(key: nat, rows: nat, statements: nat) returns (pieces: seq<Piece>)
    requires rows > 0 && statements > 0
    ensures pieces == Pieces(key, rows, statements, statements)
  {
    pieces := [];
    var s := 0;
    while s < statements
      invariant s <= statements && pieces == Pieces(key, rows, statements, s)
    {
      var first := key + Bound(s, rows, statements);
      var last := key + Bound(s + 1, rows, statements);
      if first == last {
        last := first + 1;
      }
      pieces := pieces + [Piece(first, last)];
      s := s + 1;
    }
  }

  /** The first `k` pieces. */
  function Pieces(key: nat, rows: nat, n: nat, k: nat): (r: seq<Piece>)
    requires n > 0
    ensures |r| == k
  {
    if k == 0 then [] else Pieces(key, rows, n, k - 1) + [PieceOf(key, k - 1, rows, n)]
  }

  lemma {:induction false} PieceAt(key: nat, rows: nat, n: nat, k: nat, s: nat)
    requires n > 0 && s < k
    ensures Pieces(key, rows, n, k)[s] == PieceOf(key, s, rows, n)
  {
    if s < k - 1 { PieceAt(key, rows, n, k - 1, s); }
  }

  predicate Covers(p: Piece, id: int)
  {
    p.first <= id < p.last
  }

  /** The statements cover the block, all of it and nothing else. */
  lemma CoversTheBlock(key: nat, rows: nat, n: nat, id: int)
    requires rows > 0 && n > 0
    ensures (exists p :: p in Pieces(key, rows, n, n) && Covers(p, id)) <==> key <= id < key + rows
  {
    var pieces := Pieces(key, rows, n, n);
    BoundEnds(rows, n);
    forall p | p in pieces ensures key <= p.first && p.last <= key + rows {
      var s :| 0 <= s < n && pieces[s] == p;
      PieceAt(key, rows, n, n, s);
      BoundInside(s, rows, n);
      BoundsGrow(s + 1, n, rows, n);
    }
    if key <= id < key + rows {
      var s := Holder(id - key, rows, n, n);
      PieceAt(key, rows, n, n, s);
      assert pieces[s] in pieces && Covers(pieces[s], id);
    }
  }

  lemma {:induction false} Holder(j: nat, rows: nat, n: nat, k: nat) returns (s: nat)
    requires 0 < k <= n && j < Bound(k, rows, n)
    ensures s < k && Bound(s, rows, n) <= j < Bound(s + 1, rows, n)
  {
    BoundEnds(rows, n);
    if k > 1 && j < Bound(k - 1, rows, n) {
      s := Holder(j, rows, n, k - 1);
    } else {
      s := k - 1;
    }
  }

  /** Row updates, counted with repetition. */
  function Updates(pieces: seq<Piece>): int
  {
    if pieces == [] then 0
    else Updates(pieces[..|pieces| - 1]) + pieces[|pieces| - 1].last - pieces[|pieces| - 1].first
  }

  lemma {:induction false} UpdatesSoFar(key: nat, rows: nat, n: nat, k: nat)
    requires rows > 0 && 0 < n && k <= n
    ensures Updates(Pieces(key, rows, n, k)) == if n <= rows then Bound(k, rows, n) else k
  {
    if k == 0 {
      BoundEnds(rows, n);
    } else {
      UpdatesSoFar(key, rows, n, k - 1);
      BoundStep(k - 1, rows, n);
      var pieces := Pieces(key, rows, n, k);
      assert pieces[..k - 1] == Pieces(key, rows, n, k - 1);
    }
  }

  /** A block makes max(rows, statements) row updates. */
  lemma UpdatesPerWrite(key: nat, rows: nat, n: nat)
    requires rows > 0 && n > 0
    ensures Updates(Pieces(key, rows, n, n)) == Max(rows, n)
  {
    UpdatesSoFar(key, rows, n, n);
    BoundEnds(rows, n);
  }

  // ------------------------------------------------------------------ what the table counts

  /** The part of a piece that the table has rows for. */
  function Clipped(p: Piece): int
  {
    if p.first >= TABLE then 0 else if p.last > TABLE then TABLE - p.first else p.last - p.first
  }

  /** What the updates add to the sum of the balances. */
  function Added(pieces: seq<Piece>): int
  {
    if pieces == [] then 0 else Added(pieces[..|pieces| - 1]) + Clipped(pieces[|pieces| - 1])
  }

  lemma {:induction false} AddedWithin(pieces: seq<Piece>)
    requires forall p | p in pieces :: p.first < p.last
    ensures Added(pieces) <= Updates(pieces)
    ensures Added(pieces) == Updates(pieces) <==> forall p | p in pieces :: p.last <= TABLE
  {
    if pieces != [] {
      var rest, last := pieces[..|pieces| - 1], pieces[|pieces| - 1];
      assert pieces == rest + [last];
      AddedWithin(rest);
    }
  }

  /** The key that a draw below 1024 is aligned to. */
  function Aligned(draw: nat, rows: nat): nat
    requires rows > 0
  {
    draw - draw % rows
  }

  /** A block adds the expected amount if and only if it lies within the table. */
  lemma AddedPerWrite(key: nat, rows: nat, n: nat)
    requires rows > 0 && n > 0
    ensures Added(Pieces(key, rows, n, n)) == Max(rows, n) <==> key + rows <= TABLE
  {
    var pieces := Pieces(key, rows, n, n);
    UpdatesPerWrite(key, rows, n);
    BoundEnds(rows, n);
    forall p | p in pieces ensures p.first < p.last <= key + rows {
      var s :| 0 <= s < n && pieces[s] == p;
      PieceAt(key, rows, n, n, s);
      BoundStep(s, rows, n);
      BoundInside(s, rows, n);
      BoundsGrow(s + 1, n, rows, n);
    }
    AddedWithin(pieces);
    CoversTheBlock(key, rows, n, key + rows - 1);
    if forall p | p in pieces :: p.last <= TABLE {
      var p :| p in pieces && Covers(p, key + rows - 1);
      assert key + rows <= TABLE;
    }
  }

  lemma AlignedFits(draw: nat, rows: nat)
    requires rows > 0 && draw < TABLE && TABLE % rows == 0
    ensures Aligned(draw, rows) + rows <= TABLE
  {
    var q, m := draw / rows, TABLE / rows;
    assert draw == q * rows + draw % rows && TABLE == m * rows;
    Multiples(m, q, rows);
    Multiples(q, m, rows);
  }

  ghost predicate EveryDrawAdds(rows: nat, n: nat)
    requires rows > 0 && n > 0
  {
    forall draw: nat | draw < TABLE :: Added(Pieces(Aligned(draw, rows), rows, n, n)) == Max(rows, n)
  }

  /** The expected total holds for every draw exactly when the block size divides 1024; of the
      sizes the option allows, three does not. */
  lemma TotalIsExactWhenRowsDivide(rows: nat, n: nat)
    requires rows > 0 && n > 0
    ensures EveryDrawAdds(rows, n) <==> TABLE % rows == 0
  {
    if TABLE % rows == 0 {
      forall draw: nat | draw < TABLE ensures Added(Pieces(Aligned(draw, rows), rows, n, n)) == Max(rows, n) {
        AlignedFits(draw, rows);
        AddedPerWrite(Aligned(draw, rows), rows, n);
      }
    } else {
      var draw := TABLE - 1;
      LastBlockSticksOut(rows);
      AddedPerWrite(Aligned(draw, rows), rows, n);
      assert Added(Pieces(Aligned(draw, rows), rows, n, n)) != Max(rows, n);
    }
  }

  lemma LastBlockSticksOut(rows: nat)
    requires rows > 0 && TABLE % rows != 0
    ensures Aligned(TABLE - 1, rows) + rows > TABLE
  {
    var q, r := TABLE / rows, TABLE % rows;
    assert TABLE == q * rows + r && (q + 1) * rows == q * rows + rows;
    Unique(TABLE - 1, q, r - 1, rows);
  }

  lemma RowsOfThree(n: nat)
    requires n > 0
    ensures !EveryDrawAdds(3, n) && Aligned(1023, 3) == 1023
  {
    TotalIsExactWhenRowsDivide(3, n);
  }

  datatype Operation = Operation(draw: nat, write: bool)

  /** The sum of the balances after a run, and the number of its writes. */
  function Sum(run: seq<Operation>, rows: nat, n: nat): int
    requires rows > 0 && n > 0
  {
    if run == [] then 0
    else
      var op := run[|run| - 1];
      Sum(run[..|run| - 1], rows, n) + if op.write then Added(Pieces(Aligned(op.draw, rows), rows, n, n)) else 0
  }

  function Writes(run: seq<Operation>): nat
  {
    if run == [] then 0 else Writes(run[..|run| - 1]) + if run[|run| - 1].write then 1 else 0
  }

  /** The check on the final sum, for every run. */
  lemma {:induction false} ExpectedTotal(run: seq<Operation>, rows: nat, n: nat)
    requires rows > 0 && n > 0 && TABLE % rows == 0 && forall op | op in run :: op.draw < TABLE
    ensures Sum(run, rows, n) == Max(rows, n) * Writes(run)
  {
    if run != [] {
      var rest, op := run[..|run| - 1], run[|run| - 1];
      assert op in run;
      ExpectedTotal(rest, rows, n);
      AlignedFits(op.draw, rows);
      AddedPerWrite(Aligned(op.draw, rows), rows, n);
      OneMore(Max(rows, n), Writes(rest));
    }
  }

  lemma OneMore(m: int, w: int)
    ensures m * (w + 1) == m * w + m
  {
  }
}
