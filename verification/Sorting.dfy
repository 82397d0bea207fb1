/** `sort.Slice` and `sort.Strings`: an ordered permutation of the input. */
module Sorting {
  import opened Orders

  /** What a comparator must satisfy on the values it sorts: a strict weak order. */
  ghost predicate WeakOrder<T(!new)>(less: (T, T) -> bool, values: set<T>) {
    && (forall a, b | a in values && b in values && less(a, b) :: !less(b, a))
    && (forall a, b, c | a in values && b in values && c in values && !less(b, a) && !less(c, b) :: !less(c, a))
  }

  ghost predicate Separates<T(!new)>(less: (T, T) -> bool, values: set<T>) {
    forall a, b | a in values && b in values && a != b :: less(a, b) || less(b, a)
  }

  ghost predicate Sorted<T>(less: (T, T) -> bool, s: seq<T>) {
    forall i, j | 0 <= i < j < |s| :: !less(s[j], s[i])
  }

  ghost function Elements<T>(s: seq<T>): (r: set<T>) {
    set x | x in s
  }

  function Insert<T>(less: (T, T) -> bool, x: T, s: seq<T>): (r: seq<T>) {
    if s == [] then [x]
    else if less(s[0], x) then [s[0]] + Insert(less, x, s[1..])
    else [x] + s
  }

  function Sort<T>(less: (T, T) -> bool, s: seq<T>): (r: seq<T>) {
    if s == [] then [] else Insert(less, s[0], Sort(less, s[1..]))
  }

  lemma {:induction false} InsertPermutes<T>(less: (T, T) -> bool, x: T, s: seq<T>)
    ensures multiset(Insert(less, x, s)) == multiset{x} + multiset(s)
  {
    if s != [] && less(s[0], x) {
      InsertPermutes(less, x, s[1..]);
      assert s == [s[0]] + s[1..];
    }
  }

  lemma SameElements<T>(a: seq<T>, b: seq<T>)
    requires multiset(a) == multiset(b)
    ensures Elements(a) == Elements(b) && |a| == |b|
  {
    assert forall x :: x in a <==> x in multiset(a);
    assert forall x :: x in b <==> x in multiset(b);
    assert |multiset(a)| == |a| && |multiset(b)| == |b|;
  }

  lemma {:induction false} SortPermutes<T>(less: (T, T) -> bool, s: seq<T>)
    ensures multiset(Sort(less, s)) == multiset(s)
    ensures Elements(Sort(less, s)) == Elements(s) && |Sort(less, s)| == |s|
  {
    if s != [] {
      SortPermutes(less, s[1..]);
      InsertPermutes(less, s[0], Sort(less, s[1..]));
      assert s == [s[0]] + s[1..];
    }
    SameElements(Sort(less, s), s);
  }

  lemma {:induction false} InsertSorts<T(!new)>(less: (T, T) -> bool, x: T, s: seq<T>, values: set<T>)
    requires WeakOrder(less, values) && Sorted(less, s)
    requires x in values && Elements(s) <= values
    ensures Sorted(less, Insert(less, x, s))
  {
    if s != [] {
      assert s[0] in Elements(s);
      var r := Insert(less, x, s);
      if less(s[0], x) {
        assert Elements(s[1..]) <= Elements(s);
        InsertSorts(less, x, s[1..], values);
        var t := Insert(less, x, s[1..]);
        InsertPermutes(less, x, s[1..]);
        forall j | 0 <= j < |t| ensures !less(t[j], s[0]) {
          assert t[j] in multiset(t);
          if t[j] != x {
            assert t[j] in s[1..];
          }
        }
      } else {
        forall j | 0 <= j < |s| ensures !less(s[j], x) {
          assert s[j] in Elements(s);
        }
      }
    }
  }

  lemma {:induction false} SortSorts<T(!new)>(less: (T, T) -> bool, s: seq<T>)
    requires WeakOrder(less, Elements(s))
    ensures Sorted(less, Sort(less, s))
  {
    if s != [] {
      assert Elements(s[1..]) <= Elements(s) && s[0] in Elements(s);
      SortSorts(less, s[1..]);
      SortPermutes(less, s[1..]);
      InsertSorts(less, s[0], Sort(less, s[1..]), Elements(s));
    }
  }

  lemma SortedFirst<T(!new)>(less: (T, T) -> bool, a: seq<T>, b: seq<T>)
    requires a != [] && b != [] && Elements(a) == Elements(b)
    requires Separates(less, Elements(a))
    requires Sorted(less, a) && Sorted(less, b)
    ensures a[0] == b[0]
  {
    assert a[0] in Elements(a) && b[0] in Elements(b);
    var j :| 0 <= j < |b| && b[j] == a[0];
    var i :| 0 <= i < |a| && a[i] == b[0];
    assert i == 0 || !less(a[i], a[0]);
    assert j == 0 || !less(b[j], b[0]);
  }

  lemma TailBag<T>(s: seq<T>)
    requires s != []
    ensures multiset(s[1..]) == multiset(s) - multiset{s[0]}
    ensures Elements(s[1..]) <= Elements(s)
    ensures s == [s[0]] + s[1..]
  {
    assert s == [s[0]] + s[1..];
  }

  /** Two ordered permutations of one bag agree when the order tells distinct values apart. */
  lemma {:induction false} SortedUnique<T(!new)>(less: (T, T) -> bool, a: seq<T>, b: seq<T>)
    requires multiset(a) == multiset(b)
    requires Separates(less, Elements(a))
    requires Sorted(less, a) && Sorted(less, b)
    ensures a == b
  {
    SameElements(a, b);
    if a != [] {
      SortedFirst(less, a, b);
      TailBag(a);
      TailBag(b);
      SortedUnique(less, a[1..], b[1..]);
    }
  }

  ghost predicate Distinct<T>(s: seq<T>) {
    forall i, j | 0 <= i < j < |s| :: s[i] != s[j]
  }

  lemma {:induction false} DistinctCounts<T>(s: seq<T>)
    ensures Distinct(s) <==> forall x :: multiset(s)[x] <= 1
  {
    if s != [] {
      assert s == [s[0]] + s[1..];
      DistinctCounts(s[1..]);
      if Distinct(s) {
        forall x ensures multiset(s)[x] <= 1 {
          if x == s[0] {
            assert forall j | 0 <= j < |s[1..]| :: s[1..][j] == s[j + 1];
            assert x !in s[1..];
            assert x !in multiset(s[1..]);
          }
        }
      } else {
        var i, j :| 0 <= i < j < |s| && s[i] == s[j];
        if i == 0 {
          assert s[1..][j - 1] == s[0];
          assert s[0] in multiset(s[1..]);
          assert multiset(s)[s[0]] >= 2;
        } else {
          assert s[1..][i - 1] == s[1..][j - 1];
          var x :| multiset(s[1..])[x] > 1;
          assert multiset(s)[x] > 1;
        }
      }
    }
  }

  /** Lists of the same elements, each once, hold the same bag. */
  lemma DistinctBag<T>(s: seq<T>, t: seq<T>)
    requires Distinct(s) && Distinct(t) && Elements(s) == Elements(t)
    ensures multiset(s) == multiset(t)
  {
    DistinctCounts(s);
    DistinctCounts(t);
    forall x ensures multiset(s)[x] == multiset(t)[x] {
      assert x in multiset(s) <==> x in Elements(s);
      assert x in multiset(t) <==> x in Elements(t);
    }
  }

  /** Concatenation is associative. */
  lemma Assoc<T>(a: seq<T>, b: seq<T>, c: seq<T>)
    ensures a + (b + c) == (a + b) + c
  {
  }

  lemma StringsOrdered(values: set<string>)
    ensures WeakOrder(StrLess, values) && Separates(StrLess, values)
  {
    forall a, b | a in values && b in values
      ensures StrLess(a, b) ==> !StrLess(b, a)
      ensures a != b ==> StrLess(a, b) || StrLess(b, a)
    {
      StrLessTotal(a, b);
      if StrLess(a, b) { StrLessAsym(a, b); }
    }
    forall a, b, c | a in values && b in values && c in values && !StrLess(b, a) && !StrLess(c, b)
      ensures !StrLess(c, a)
    {
      StrAtMostTrans(a, b, c);
    }
  }
}
