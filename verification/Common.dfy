/** Small types and list facts shared by the models. */
module Common {

  datatype Option<+T> = None | Some(value: T)

  ghost predicate NonDecreasing(s: seq<int>)
  {
    forall i, j | 0 <= i < j < |s| :: s[i] <= s[j]
  }

  ghost predicate Ascending(s: seq<int>)
  {
    forall i, j | 0 <= i < j < |s| :: s[i] < s[j]
  }

  function Elements<T>(s: seq<T>): set<T>
  {
    set x | x in s
  }

  function Insert(x: int, s: seq<int>): (r: seq<int>)
    ensures multiset(r) == multiset(s) + multiset{x}
  {
    if s == [] || x <= s[0] then [x] + s
    else
      assert s == [s[0]] + s[1..];
      [s[0]] + Insert(x, s[1..])
  }

  /** `sorted(list)`: repetitions stay. */
  function Sort(s: seq<int>): (r: seq<int>)
    ensures multiset(r) == multiset(s)
  {
    if s == [] then []
    else
      assert s == [s[0]] + s[1..];
      Insert(s[0], Sort(s[1..]))
  }

  lemma {:induction false} InsertMembers(x: int, s: seq<int>, y: int)
    requires y in Insert(x, s)
    ensures y == x || y in s
  {
    if s != [] && s[0] < x && y != s[0] {
      assert Insert(x, s) == [s[0]] + Insert(x, s[1..]);
      InsertMembers(x, s[1..], y);
    }
  }

  lemma ConsKeepsOrder(x: int, t: seq<int>)
    requires NonDecreasing(t) && forall y | y in t :: x <= y
    ensures NonDecreasing([x] + t)
  {
    var r := [x] + t;
    forall i, j | 0 <= i < j < |r| ensures r[i] <= r[j] {
      assert r[j] == t[j - 1] && t[j - 1] in t;
      if i > 0 { assert r[i] == t[i - 1]; }
    }
  }

  lemma {:induction false} InsertKeepsOrder(x: int, s: seq<int>)
    requires NonDecreasing(s)
    ensures NonDecreasing(Insert(x, s))
  {
    if s == [] || x <= s[0] {
      ConsKeepsOrder(x, s);
    } else {
      InsertKeepsOrder(x, s[1..]);
      forall y | y in Insert(x, s[1..]) ensures s[0] <= y {
        InsertMembers(x, s[1..], y);
      }
      ConsKeepsOrder(s[0], Insert(x, s[1..]));
    }
  }

  lemma {:induction false} SortIsOrdered(s: seq<int>)
    ensures NonDecreasing(Sort(s))
  {
    if s != [] {
      SortIsOrdered(s[1..]);
      InsertKeepsOrder(s[0], Sort(s[1..]));
    }
  }

  lemma {:induction false} SortOfSorted(s: seq<int>)
    requires NonDecreasing(s)
    ensures Sort(s) == s
  {
    if s != [] {
      SortOfSorted(s[1..]);
      assert s == [s[0]] + s[1..];
    }
  }

  /** A bag has one listing in order. */
  lemma {:induction false} OrderedIsUnique(a: seq<int>, b: seq<int>)
    requires NonDecreasing(a) && NonDecreasing(b) && multiset(a) == multiset(b)
    ensures a == b
  {
    EmptyMultiset(a);
    EmptyMultiset(b);
    if a != [] {
      SameLeast(a, b);
      SameLeast(b, a);
      TailMultiset(a);
      TailMultiset(b);
      OrderedIsUnique(a[1..], b[1..]);
    }
  }

  lemma SameLeast(a: seq<int>, b: seq<int>)
    requires NonDecreasing(b) && multiset(a) == multiset(b) && a != [] && b != []
    ensures b[0] <= a[0]
  {
    assert a[0] in multiset(b);
    var i :| 0 <= i < |b| && b[i] == a[0];
  }

  /** Sorting is any listing in order. */
  lemma SortMeaning(s: seq<int>, r: seq<int>)
    ensures r == Sort(s) <==> NonDecreasing(r) && multiset(r) == multiset(s)
  {
    SortIsOrdered(s);
    if NonDecreasing(r) && multiset(r) == multiset(s) { OrderedIsUnique(r, Sort(s)); }
  }

  function Least(s: set<int>): (x: int)
    requires s != {}
    ensures x in s && forall y | y in s :: x <= y
  {
    LeastExists(s);
    var x :| x in s && forall y | y in s :: x <= y;
    x
  }

  lemma SomeElement<T>(s: set<T>) returns (x: T)
    requires s != {}
    ensures x in s
  {
    x :| x in s;
  }

  lemma {:induction false} LeastExists(s: set<int>)
    requires s != {}
    ensures exists x :: x in s && forall y | y in s :: x <= y
  {
    var z := SomeElement(s);
    var t := s - {z};
    if t != {} {
      LeastExists(t);
      var x :| x in t && forall y | y in t :: x <= y;
      var m := if x <= z then x else z;
      forall y | y in s ensures m <= y {
        assert y == z || y in t;
      }
    } else {
      assert s == {z};
    }
  }

  /** `sorted(set)`. */
  function SortedSet(s: set<int>): (r: seq<int>)
    ensures Ascending(r) && Elements(r) == s
    decreases |s|
  {
    if s == {} then []
    else
      var x := Least(s);
      var t := SortedSet(s - {x});
      assert forall y :: y in t ==> y in Elements(t);
      assert forall y :: y in s <==> y == x || y in Elements(t);
      [x] + t
  }

  lemma EmptyElements<T>(s: seq<T>)
    ensures Elements(s) == {} <==> s == []
  {
    if s != [] { assert s[0] in Elements(s); }
  }

  /** A set has one ascending listing. */
  lemma {:induction false} AscendingIsUnique(a: seq<int>, b: seq<int>)
    requires Ascending(a) && Ascending(b) && Elements(a) == Elements(b)
    ensures a == b
  {
    assert forall x :: x in a <==> x in Elements(a);
    assert forall x :: x in b <==> x in Elements(b);
    EmptyElements(a);
    EmptyElements(b);
    if a != [] {
      assert a[0] in b;
      assert b[0] in a;
      assert a[0] == b[0];
      forall x ensures x in Elements(a[1..]) <==> x in Elements(b[1..]) {
        assert x in a[1..] <==> x in a && x != a[0];
        assert x in b[1..] <==> x in b && x != b[0];
      }
      AscendingIsUnique(a[1..], b[1..]);
    }
  }

  /** A list without its element at `p`. */
  function Without<T>(s: seq<T>, p: nat): seq<T>
    requires p < |s|
  {
    s[..p] + s[p + 1..]
  }

  lemma WithoutMultiset<T>(s: seq<T>, p: nat)
    requires p < |s|
    ensures multiset(Without(s, p)) == multiset(s) - multiset{s[p]}
  {
    assert s == s[..p] + [s[p]] + s[p + 1..];
  }

  lemma TailMultiset<T>(s: seq<T>)
    requires s != []
    ensures multiset(s) == multiset(s[1..]) + multiset{s[0]}
    ensures multiset(s[1..]) == multiset(s) - multiset{s[0]}
  {
    assert s == [s[0]] + s[1..];
  }

  lemma EmptyMultiset<T>(s: seq<T>)
    ensures multiset(s) == multiset{} <==> s == []
  {
    if s != [] { assert s[0] in multiset(s); }
  }

  /** Equal bags: the head of one is somewhere in the other, and taking it out of both
      leaves equal bags. */
  lemma MatchHead<T>(a: seq<T>, b: seq<T>) returns (p: nat)
    requires a != [] && multiset(a) == multiset(b)
    ensures p < |b| && b[p] == a[0] && multiset(a[1..]) == multiset(Without(b, p))
  {
    assert a[0] in multiset(b);
    p :| p < |b| && b[p] == a[0];
    TailMultiset(a);
    WithoutMultiset(b, p);
  }
}
