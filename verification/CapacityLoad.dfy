/** The capacity load: a table that doubles by copying its own first rows, also when a resumed
    load is crossed by one old insert, and the range counts that verify it. */
module CapacityLoad {
  import opened Common
  import opened Division

  type Payload(==, !new)

  const SEEDS: nat := 256
  const CHUNK: nat := 4096
  const RANGE: nat := 16384

  /** The primary key is the map's key. */
  type Table = map<int, Payload>

  /** The rows below `n`, each with the payload of its number modulo 256. */
  ghost predicate Loaded(t: Table, payloads: seq<Payload>, n: nat)
    requires |payloads| == SEEDS
  {
    && (forall id: int :: id in t <==> 0 <= id < n)
    && (forall id: int | 0 <= id < n :: id in t && t[id] == payloads[id % SEEDS])
  }

  function Shifted(t: Table, up: int, below: int): (r: Table)
    ensures forall id: int :: (id in r) <==> (id - up in t && id - up < below)
    ensures forall id: int | id in r :: r[id] == t[id - up]
  {
    map id: int | id in ShiftedKeys(t.Keys, up, below) :: t[id - up]
  }

  function ShiftedKeys(keys: set<int>, up: int, below: int): (r: set<int>)
    ensures forall id: int :: (id in r) <==> (id - up in keys && id - up < below)
  {
    var r := set k: int | k in keys && k < below :: k + up;
    assert forall k: int | k in keys && k < below :: k + up in r;
    r
  }

  /** INSERT (or INSERT OR IGNORE) of the rows with id below `chunk`, moved up by `rows`; None
      is a violated primary key. */
  function InsertCopy(t: Table, rows: nat, chunk: nat, ignore: bool): Option<Table>
  {
    var fresh' := Shifted(t, rows, chunk);
    if !ignore && fresh'.Keys * t.Keys != {} then None else Some(fresh' + t)
  }

  lemma SamePayload(id: nat, rows: nat)
    requires rows % SEEDS == 0
    ensures (id + rows) % SEEDS == id % SEEDS
  {
    var q := rows / SEEDS;
    assert rows == q * SEEDS;
    Unique(id + rows, id / SEEDS + q, id % SEEDS, SEEDS);
  }

  /** The copied rows are the next ones, with the payloads of the first. */
  lemma CopiedRows(t: Table, payloads: seq<Payload>, rows: nat, reach: nat, chunk: nat)
    requires |payloads| == SEEDS && Loaded(t, payloads, reach) && chunk <= reach
    ensures var f := Shifted(t, rows, chunk);
            && (forall id: int :: (id in f) <==> (rows <= id < rows + chunk))
            && (forall id: int | rows <= id < rows + chunk :: id in f && f[id] == payloads[(id - rows) % SEEDS])
  {
    var f := Shifted(t, rows, chunk);
    forall id: int | rows <= id < rows + chunk ensures id in f && f[id] == payloads[(id - rows) % SEEDS] {
      assert id - rows in t;
    }
  }

  lemma InsertedRows(t: Table, payloads: seq<Payload>, rows: nat, reach: nat, chunk: nat, id: int)
    requires |payloads| == SEEDS && Loaded(t, payloads, reach) && rows <= reach && chunk <= rows
    ensures var r := InsertCopy(t, rows, chunk, true).value;
            && (id in r <==> (0 <= id < reach || rows <= id < rows + chunk))
            && (id in r ==> r[id] == if id < reach then payloads[id % SEEDS] else payloads[(id - rows) % SEEDS])
  {
    CopiedRows(t, payloads, rows, reach, chunk);
    var f, r := Shifted(t, rows, chunk), InsertCopy(t, rows, chunk, true).value;
    assert r == f + t;
    if id in r && id !in t { assert id in f; }
  }

  /** Copying to the end of `rows` rows of a table that may already reach further. */
  lemma CopyExtends(t: Table, payloads: seq<Payload>, rows: nat, reach: nat, chunk: nat)
    requires |payloads| == SEEDS && Loaded(t, payloads, reach)
    requires rows <= reach && chunk <= rows && rows % SEEDS == 0
    ensures Loaded(InsertCopy(t, rows, chunk, true).value, payloads,
            if reach < rows + chunk then rows + chunk else reach)
  {
    var r := InsertCopy(t, rows, chunk, true).value;
    var n := if reach < rows + chunk then rows + chunk else reach;
    forall id: int ensures id in r <==> 0 <= id < n {
      InsertedRows(t, payloads, rows, reach, chunk, id);
    }
    forall id: int | 0 <= id < n ensures id in r && r[id] == payloads[id % SEEDS] {
      InsertedRows(t, payloads, rows, reach, chunk, id);
      if reach <= id { SamePayload(id - rows, rows); }
    }
  }

  /** INSERT without IGNORE succeeds exactly when nothing is there yet, and then does the
      same. */
  lemma PlainInsert(t: Table, payloads: seq<Payload>, rows: nat, reach: nat, chunk: nat)
    requires |payloads| == SEEDS && Loaded(t, payloads, reach) && 0 < chunk <= rows <= reach
    ensures InsertCopy(t, rows, chunk, false).Some? <==> rows == reach
    ensures rows == reach ==> InsertCopy(t, rows, chunk, false) == InsertCopy(t, rows, chunk, true)
  {
    var both := Shifted(t, rows, chunk).Keys * t.Keys;
    if rows < reach {
      assert 0 in t;
      assert rows in both;
    } else {
      assert both == {};
    }
  }

  /** Copying keeps the pattern exactly because the row count is a multiple of 256. */
  lemma CopyKeepsPattern(t: Table, payloads: seq<Payload>, rows: nat, chunk: nat)
    requires |payloads| == SEEDS && Loaded(t, payloads, rows) && 0 < chunk <= rows
    requires forall i, j | 0 <= i < j < SEEDS :: payloads[i] != payloads[j]
    ensures Loaded(InsertCopy(t, rows, chunk, true).value, payloads, rows + chunk) <==> rows % SEEDS == 0
  {
    var r := InsertCopy(t, rows, chunk, true).value;
    if rows % SEEDS == 0 {
      CopyExtends(t, payloads, rows, rows, chunk);
    } else {
      InsertedRows(t, payloads, rows, rows, chunk, rows);
      assert r[rows as int] == payloads[0] && payloads[0] != payloads[rows % SEEDS];
    }
  }

  /** The most that there is to copy, that one statement may copy, and that is still missing. */
  function Chunk(rows: nat, target: nat): (c: nat)
    requires rows <= target
    ensures c <= rows && c <= 4096 && c <= target - rows
    ensures c == rows || c == 4096 || c == target - rows
  {
    var a := if rows < CHUNK then rows else CHUNK;
    if a < target - rows then a else target - rows
  }

  lemma ChunkKeepsMultiple(rows: nat, target: nat)
    requires rows < target && rows % SEEDS == 0 && target % SEEDS == 0
    ensures (rows + Chunk(rows, target)) % SEEDS == 0
  {
    var a, b := rows / SEEDS, target / SEEDS;
    assert rows == a * SEEDS && target == b * SEEDS;
    var c := Chunk(rows, target);
    if c == rows {
      Unique(rows + c, 2 * a, 0, SEEDS);
    } else if c == CHUNK {
      Unique(rows + c, a + 16, 0, SEEDS);
    }
  }

  /** A fresh load: the first 256 rows one by one. */
  method Seed(payloads: seq<Payload>) returns (t: Table)
    requires |payloads| == SEEDS
    ensures Loaded(t, payloads, SEEDS)
  {
    t := map[];
    var key := 0;
    while key < SEEDS
      invariant key <= SEEDS && Loaded(t, payloads, key)
    {
      ModSmall(key, SEEDS);
      t := t[key := payloads[key]];
      key := key + 1;
    }
  }

  /** One stage of a fresh load. */
  method Load(t0: Table, payloads: seq<Payload>, rows0: nat, target: nat) returns (t: Table, rows: nat)
    requires |payloads| == SEEDS && Loaded(t0, payloads, rows0)
    requires 0 < rows0 && rows0 % SEEDS == 0 && target % SEEDS == 0
    ensures rows == (if rows0 < target then target else rows0) && rows % SEEDS == 0
    ensures Loaded(t, payloads, rows)
  {
    t, rows := t0, rows0;
    while rows < target
      invariant rows0 <= rows && (rows <= target || rows == rows0)
      invariant rows % SEEDS == 0 && Loaded(t, payloads, rows)
      decreases target - rows
    {
      var chunk := Chunk(rows, target);
      PlainInsert(t, payloads, rows, rows, chunk);
      CopyExtends(t, payloads, rows, rows, chunk);
      ChunkKeepsMultiple(rows, target);
      t := InsertCopy(t, rows, chunk, false).value;
      rows := rows + chunk;
    }
  }

  /** The old insert of an interrupted load, as the database sees it whenever it arrives. */
  datatype Old = Old(rows: nat, chunk: nat, ignore: bool)

  function Landed(t: Table, old0: Old): Table
  {
    match InsertCopy(t, old0.rows, old0.chunk, old0.ignore)
    case None => t
    case Some(r) => r
  }

  /** A late insert does nothing, or completes its own chunk. */
  lemma LateInsert(t: Table, payloads: seq<Payload>, reach: nat, o: Old)
    requires |payloads| == SEEDS && Loaded(t, payloads, reach)
    requires 0 < o.chunk <= o.rows <= reach && o.rows % SEEDS == 0
    ensures Loaded(Landed(t, o), payloads, Reach(reach, o))
  {
    PlainInsert(t, payloads, o.rows, reach, o.chunk);
    CopyExtends(t, payloads, o.rows, reach, o.chunk);
  }

  /** How far a table of `reach` rows reaches after the old insert. */
  function Reach(reach: nat, o: Old): nat
  {
    if o.rows + o.chunk <= reach || (!o.ignore && o.rows < reach) then reach else o.rows + o.chunk
  }

  /** The old insert has no effect on a resumed load: it never lands, it ends within the rows
      that the load counts, or it is a plain INSERT that finds its first key taken, because
      rows were there before or the loop has put one there. */
  predicate Harmless(rows0: nat, target: nat, o: Old, lands: Option<nat>)
  {
    || lands.None?
    || o.rows + o.chunk <= Counted(rows0, target)
    || (!o.ignore && (o.rows < rows0 || (0 < lands.value && rows0 < target)))
  }

  /** The rows that a stage ends up counting. */
  function Counted(rows0: nat, target: nat): nat
  {
    if rows0 < target then target else rows0
  }

  /** A resumed load.  The old insert lands before the step `lands`, after the last step if
      there are fewer, or never.  The loop knows nothing of it. */
  method Resume(t0: Table, payloads: seq<Payload>, rows0: nat, target: nat, o: Old, lands: Option<nat>)
    returns (t: Table, rows: nat, ghost reach: nat)
    requires |payloads| == SEEDS && Loaded(t0, payloads, rows0)
    requires 0 < o.chunk <= o.rows <= rows0 && o.rows % SEEDS == 0
    requires rows0 % SEEDS == 0 && target % SEEDS == 0
    ensures rows == Counted(rows0, target) && Loaded(t, payloads, reach)
    ensures reach == if Harmless(rows0, target, o, lands) then rows else o.rows + o.chunk
  {
    t, rows, reach := t0, rows0, rows0;
    var step := 0;
    while rows < target
      invariant rows0 <= rows <= reach && (rows <= target || rows == rows0) && rows % SEEDS == 0
      invariant Loaded(t, payloads, reach)
      invariant step == 0 <==> rows == rows0
      invariant step > 0 ==> rows0 < target
      invariant lands.None? || step <= lands.value ==> reach == rows
      invariant lands.Some? && lands.value < step ==>
                  reach == if Harmless(rows0, rows, o, lands) then rows else o.rows + o.chunk
      decreases target - rows
    {
      if lands == Some(step) {
        LateInsert(t, payloads, reach, o);
        t, reach := Landed(t, o), Reach(reach, o);
      }
      var chunk := Chunk(rows, target);
      CopyExtends(t, payloads, rows, reach, chunk);
      ChunkKeepsMultiple(rows, target);
      t := InsertCopy(t, rows, chunk, true).value;
      reach := if reach < rows + chunk then rows + chunk else reach;
      rows := rows + chunk;
      step := step + 1;
    }
    if lands.Some? && step <= lands.value {
      LateInsert(t, payloads, reach, o);
      t, reach := Landed(t, o), Reach(reach, o);
    }
  }

  // -------------------------------------------------------------------------- verification

  function InRange(keys: set<int>, first: int, last: int): set<int>
  {
    set k | k in keys && first <= k < last
  }

  function Interval(n: nat): (s: set<int>)
    ensures |s| == n && forall k: int :: k in s <==> 0 <= k < n
  {
    if n == 0 then {} else Interval(n - 1) + {n - 1}
  }

  lemma SplitRange(keys: set<int>, a: int, b: int, c: int)
    requires a <= b <= c
    ensures |InRange(keys, a, c)| == |InRange(keys, a, b)| + |InRange(keys, b, c)|
  {
    assert InRange(keys, a, c) == InRange(keys, a, b) + InRange(keys, b, c);
  }

  lemma SubsetOfSameSize(a: set<int>, b: set<int>)
    requires a <= b && |a| == |b|
    ensures a == b
  {
    assert |b| == |a| + |b - a| by { assert b == a + (b - a); }
    if b - a != {} {
      var x := SomeElement(b - a);
    }
  }

  /** The least and the greatest key and the sum of the range counts prove the key set. */
  lemma CountsProveKeys(keys: set<int>, rows: nat)
    requires rows > 0
    ensures (0 in keys && rows - 1 in keys && (forall k | k in keys :: 0 <= k <= rows - 1)
             && |InRange(keys, 0, rows)| == rows) <==> keys == Interval(rows)
  {
    var within := InRange(keys, 0, rows);
    if keys == Interval(rows) {
      assert within == keys;
    } else if within == keys && |within| == rows {
      assert keys <= Interval(rows);
      SubsetOfSameSize(keys, Interval(rows));
    } else if forall k | k in keys :: 0 <= k <= rows - 1 {
      assert within == keys;
    }
  }

  /** `verify`: true exactly if the ids are 0 to rows-1. */
  method Verify(keys: set<int>, rows: nat) returns (ok: bool)
    requires rows > 0
    ensures ok <==> keys == Interval(rows)
  {
    CountsProveKeys(keys, rows);
    if 0 !in keys || rows - 1 !in keys || exists k | k in keys :: k < 0 || rows - 1 < k {
      return false;
    }
    var counted, first := 0, 0;
    while first < rows
      invariant 0 <= first
      invariant counted == |InRange(keys, 0, if first < rows then first else rows)|
    {
      var last := if rows < first + RANGE then rows else first + RANGE;
      SplitRange(keys, 0, first, last);
      counted := counted + |InRange(keys, first, last)|;
      first := first + RANGE;
    }
    ok := counted == rows;
  }

  /** A resumed load verifies if and only if the old insert was harmless, which is decided by
      the row counts, the kind of the insert and when it lands. */
  lemma ResumedVerifies(t: Table, payloads: seq<Payload>, rows0: nat, target: nat, o: Old, lands: Option<nat>)
    requires |payloads| == SEEDS && 0 < o.chunk <= o.rows <= rows0
    requires Loaded(t, payloads, if Harmless(rows0, target, o, lands) then Counted(rows0, target) else o.rows + o.chunk)
    ensures t.Keys == Interval(Counted(rows0, target)) <==> Harmless(rows0, target, o, lands)
  {
    var rows := Counted(rows0, target);
    if Harmless(rows0, target, o, lands) {
      assert t.Keys == Interval(rows);
    } else {
      assert rows in t.Keys && rows !in Interval(rows);
    }
  }

  /** The harmful case happens: a load of three MiB is interrupted with 512 rows present and its
      next insert uncertain, it is resumed with a target of two MiB, and the insert lands. */
  method InterruptedFixture(payloads: seq<Payload>) returns (ok: bool)
    requires |payloads| == SEEDS
    ensures !ok
  {
    var t := Seed(payloads);
    var rows;
    t, rows := Load(t, payloads, SEEDS, 512);
    var o := Old(rows, Chunk(rows, 768), false);
    ghost var reach;
    t, rows, reach := Resume(t, payloads, rows, 512, o, Some(0));
    ResumedVerifies(t, payloads, 512, 512, o, Some(0));
    ok := Verify(t.Keys, rows);
  }
}
