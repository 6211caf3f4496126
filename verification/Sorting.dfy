/** Go's `sort.SliceStable`, `sort.Slice` and `sort.Strings`, as one stable sort. */
module Sorting {

  ghost predicate TotalPreorder<T(!new)>(le: (T, T) -> bool) {
    && (forall a, b :: le(a, b) || le(b, a))
    && (forall a, b, c :: le(a, b) && le(b, c) ==> le(a, c))
  }

  ghost predicate Sorted<T>(s: seq<T>, le: (T, T) -> bool) {
    forall i, j :: 0 <= i < j < |s| ==> le(s[i], s[j])
  }

  function Insert<T>(x: T, s: seq<T>, le: (T, T) -> bool): seq<T> {
    if s == [] || le(x, s[0]) then [x] + s else [s[0]] + Insert(x, s[1..], le)
  }

  function Sort<T>(s: seq<T>, le: (T, T) -> bool): seq<T> {
    if s == [] then [] else Insert(s[0], Sort(s[1..], le), le)
  }

  lemma {:induction false} InsertKeeps<T>(x: T, s: seq<T>, le: (T, T) -> bool)
    ensures multiset(Insert(x, s, le)) == multiset{x} + multiset(s)
    ensures forall y :: y in Insert(x, s, le) <==> y == x || y in s
  {
    if s != [] && !le(x, s[0]) {
      InsertKeeps(x, s[1..], le);
      assert s == [s[0]] + s[1..];
    }
  }

  lemma {:induction false} InsertSorts<T(!new)>(x: T, s: seq<T>, le: (T, T) -> bool)
    requires TotalPreorder(le) && Sorted(s, le)
    ensures multiset(Insert(x, s, le)) == multiset{x} + multiset(s)
    ensures Sorted(Insert(x, s, le), le)
  {
    InsertKeeps(x, s, le);
    if s == [] || le(x, s[0]) {
      assert forall j :: 0 < j < |s| ==> le(s[0], s[j]);
    } else {
      InsertSorts(x, s[1..], le);
      var r := Insert(x, s[1..], le);
      InsertKeeps(x, s[1..], le);
      forall k | 0 <= k < |r| ensures le(s[0], r[k]) {
        assert r[k] in r;
      }
    }
  }

  /** Sorting permutes, and the result is ordered. */
  lemma {:induction false} SortSorts<T(!new)>(s: seq<T>, le: (T, T) -> bool)
    requires TotalPreorder(le)
    ensures multiset(Sort(s, le)) == multiset(s) && |Sort(s, le)| == |s|
    ensures Sorted(Sort(s, le), le)
  {
    if s != [] {
      SortSorts(s[1..], le);
      InsertSorts(s[0], Sort(s[1..], le), le);
      assert s == [s[0]] + s[1..];
    }
    assert |multiset(Sort(s, le))| == |multiset(s)|;
  }

  /** No two elements of `s` tie. */
  ghost predicate TellsApart<T(!new)>(s: seq<T>, le: (T, T) -> bool) {
    forall x, y :: x in s && y in s && le(x, y) && le(y, x) ==> x == y
  }

  lemma TailOf<T(!new)>(s: seq<T>, le: (T, T) -> bool)
    requires s != [] && Sorted(s, le)
    ensures Sorted(s[1..], le) && (TellsApart(s, le) ==> TellsApart(s[1..], le))
    ensures multiset(s[1..]) == multiset(s) - multiset{s[0]}
  {
    assert s == [s[0]] + s[1..];
    assert forall x :: x in s[1..] ==> x in s;
  }

  lemma SortedHead<T(!new)>(a: seq<T>, b: seq<T>, le: (T, T) -> bool)
    requires a != [] && b != [] && Sorted(a, le) && Sorted(b, le) && multiset(a) == multiset(b)
    requires TellsApart(a, le)
    ensures a[0] == b[0]
  {
    assert a[0] in multiset(b) && b[0] in multiset(a);
    var i :| 0 <= i < |b| && b[i] == a[0];
    var j :| 0 <= j < |a| && a[j] == b[0];
    if i > 0 && j > 0 { assert le(a[0], a[j]) && le(b[0], b[i]); }
  }

  lemma SameSize<T>(a: seq<T>, b: seq<T>)
    requires multiset(a) == multiset(b)
    ensures |a| == |b|
  {
    assert |multiset(a)| == |a| && |multiset(b)| == |b|;
  }

  lemma TailsMatch<T(!new)>(a: seq<T>, b: seq<T>, le: (T, T) -> bool)
    requires a != [] && b != [] && Sorted(a, le) && Sorted(b, le) && multiset(a) == multiset(b) && TellsApart(a, le)
    ensures a[0] == b[0] && Sorted(a[1..], le) && Sorted(b[1..], le) && multiset(a[1..]) == multiset(b[1..]) && TellsApart(a[1..], le)
  {
    SortedHead(a, b, le);
    TailOf(a, le);
    TailOf(b, le);
  }

  /** An order that tells the elements apart leaves only one way to arrange them. */
  lemma {:induction false} SortedUnique<T(!new)>(a: seq<T>, b: seq<T>, le: (T, T) -> bool)
    requires Sorted(a, le) && Sorted(b, le) && multiset(a) == multiset(b)
    requires TellsApart(a, le)
    ensures a == b
    decreases |a|
  {
    SameSize(a, b);
    if a != [] {
      TailsMatch(a, b, le);
      SortedUnique(a[1..], b[1..], le);
      assert a == [a[0]] + a[1..] && b == [b[0]] + b[1..];
    }
  }

  lemma SortMembers<T(!new)>(s: seq<T>, le: (T, T) -> bool)
    requires TotalPreorder(le)
    ensures forall x :: x in Sort(s, le) <==> x in s
  {
    SortSorts(s, le);
    assert forall x :: x in Sort(s, le) <==> x in multiset(Sort(s, le));
    assert forall x :: x in s <==> x in multiset(s);
  }

  ghost predicate Distinct<T>(s: seq<T>) { forall i, j :: 0 <= i < j < |s| ==> s[i] != s[j] }

  lemma {:induction false} DistinctIsCountOne<T>(s: seq<T>)
    ensures Distinct(s) <==> forall x :: multiset(s)[x] <= 1
  {
    if s != [] {
      var t := s[1..];
      assert s == [s[0]] + t;
      DistinctIsCountOne(t);
      if Distinct(s) {
        assert s[0] !in multiset(t);
      } else if Distinct(t) {
        var j :| 0 < j < |s| && s[0] == s[j];
        assert t[j - 1] in multiset(t);
        assert multiset(s)[s[0]] >= 2;
      } else {
        var x :| multiset(t)[x] > 1;
        assert multiset(s)[x] > 1;
      }
    }
  }

  lemma SortDistinct<T(!new)>(s: seq<T>, le: (T, T) -> bool)
    requires TotalPreorder(le) && Distinct(s)
    ensures Distinct(Sort(s, le))
  {
    SortSorts(s, le);
    DistinctIsCountOne(s);
    DistinctIsCountOne(Sort(s, le));
  }

  /******* Strings *******/

  /** Go's string order; UTF-8 byte order is code point order. */
  predicate StringLe(a: string, b: string) {
    a == [] || (b != [] && (a[0] < b[0] || (a[0] == b[0] && StringLe(a[1..], b[1..]))))
  }

  lemma StringLeTotal(a: string, b: string)
    ensures StringLe(a, b) || StringLe(b, a)
    ensures StringLe(a, b) && StringLe(b, a) ==> a == b
  {
    if a != [] && b != [] && a[0] == b[0] {
      StringLeTotal(a[1..], b[1..]);
      assert a == [a[0]] + a[1..] && b == [b[0]] + b[1..];
    }
  }

  lemma StringLeTransitive(a: string, b: string, c: string)
    requires StringLe(a, b) && StringLe(b, c)
    ensures StringLe(a, c)
  {
    if a != [] && a[0] == b[0] == c[0] { StringLeTransitive(a[1..], b[1..], c[1..]); }
  }

  /** Sorting strings forgets their order and nothing else. */
  lemma SortsAlike(a: seq<string>, b: seq<string>)
    ensures Sort(a, StringLe) == Sort(b, StringLe) <==> multiset(a) == multiset(b)
  {
    StringLeOrders();
    SortSorts(a, StringLe);
    SortSorts(b, StringLe);
    forall x, y | StringLe(x, y) && StringLe(y, x) ensures x == y { StringLeTotal(x, y); }
    if multiset(a) == multiset(b) { SortedUnique(Sort(a, StringLe), Sort(b, StringLe), StringLe); }
  }

  lemma StringLeOrders()
    ensures TotalPreorder(StringLe)
  {
    forall a, b ensures StringLe(a, b) || StringLe(b, a) { StringLeTotal(a, b); }
    forall a, b, c | StringLe(a, b) && StringLe(b, c) ensures StringLe(a, c) { StringLeTransitive(a, b, c); }
  }
}
