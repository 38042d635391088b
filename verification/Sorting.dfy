/** A stable sort by a key order, standing for Python's `sorted`. */
module Sorting {

  ghost predicate TotalOrder<T(!new)>(le: (T, T) -> bool) {
    && (forall a, b :: le(a, b) || le(b, a))
    && (forall a, b, c :: le(a, b) && le(b, c) ==> le(a, c))
  }

  ghost predicate Sorted<T>(s: seq<T>, le: (T, T) -> bool) {
    forall i, j | 0 <= i < j < |s| :: le(s[i], s[j])
  }

  function Insert<T>(x: T, s: seq<T>, le: (T, T) -> bool): (r: seq<T>)
    ensures |r| == |s| + 1 && multiset(r) == multiset(s) + multiset{x}
    decreases |s|
  {
    if s == [] || le(x, s[0]) then
      assert [x] + s == [x] + s;
      [x] + s
    else
      assert s == [s[0]] + s[1..];
      [s[0]] + Insert(x, s[1..], le)
  }

  /** Earlier elements stay before later ones of the same key. */
  function Sort<T>(s: seq<T>, le: (T, T) -> bool): (r: seq<T>)
    ensures |r| == |s| && multiset(r) == multiset(s)
    decreases |s|
  {
    if s == [] then [] else
      assert s == [s[0]] + s[1..];
      Insert(s[0], Sort(s[1..], le), le)
  }

  lemma {:induction false} InsertSorted<T(!new)>(x: T, s: seq<T>, le: (T, T) -> bool)
    requires TotalOrder(le) && Sorted(s, le)
    ensures Sorted(Insert(x, s, le), le)
    decreases |s|
  {
    if s != [] && !le(x, s[0]) {
      InsertSorted(x, s[1..], le);
      var rest := Insert(x, s[1..], le);
      forall j | 0 <= j < |rest| ensures le(s[0], rest[j]) {
        assert rest[j] in multiset(rest);
        assert rest[j] == x || rest[j] in s[1..];
      }
    }
  }

  lemma {:induction false} SortSorts<T(!new)>(s: seq<T>, le: (T, T) -> bool)
    requires TotalOrder(le)
    ensures Sorted(Sort(s, le), le)
    decreases |s|
  {
    if s != [] {
      SortSorts(s[1..], le);
      InsertSorted(s[0], Sort(s[1..], le), le);
    }
  }

  /** Sorting a list that is already in order does nothing. */
  lemma {:induction false} SortIdle<T>(s: seq<T>, le: (T, T) -> bool)
    requires Sorted(s, le)
    ensures Sort(s, le) == s
    decreases |s|
  {
    if s != [] {
      SortIdle(s[1..], le);
      assert s == [s[0]] + s[1..];
    }
  }

  lemma SortStep<T>(s: seq<T>, x: T, le: (T, T) -> bool)
    requires s != []
    ensures Sort(s + [x], le) == Insert(s[0], Sort(s[1..] + [x], le), le)
  {
    hide Insert;
    assert s + [x] != [] && (s + [x])[0] == s[0] && (s + [x])[1..] == s[1..] + [x];
  }

  lemma SortOne<T>(x: T, le: (T, T) -> bool)
    ensures Sort([x], le) == [x]
  {
    assert [x][1..] == [];
  }

  lemma InsertSecond<T>(s: seq<T>, x: T, le: (T, T) -> bool)
    requires s != [] && Sorted(s, le) && !le(s[0], x)
    ensures Insert(s[0], [x] + s[1..], le) == [x] + s
  {
    var rest := [x] + s[1..];
    assert rest[1..] == s[1..];
    assert s[1..] == [] || (s[1..][0] == s[1] && le(s[0], s[1]));
    assert [s[0]] + s[1..] == s;
  }

  /** A new least element goes to the front. */
  lemma {:induction false} SortLeast<T>(s: seq<T>, x: T, le: (T, T) -> bool)
    requires Sorted(s, le) && forall i | 0 <= i < |s| :: !le(s[i], x)
    ensures Sort(s + [x], le) == [x] + s
    decreases |s|
  {
    hide Sort, Insert;
    if s == [] {
      SortOne(x, le);
      assert s + [x] == [x] == [x] + s;
    } else {
      SortLeast(s[1..], x, le);
      SortStep(s, x, le);
      InsertSecond(s, x, le);
    }
  }

  lemma SameElements<T>(s: seq<T>, le: (T, T) -> bool)
    ensures forall x :: x in Sort(s, le) <==> x in s
  {
    forall x ensures x in Sort(s, le) <==> x in s {
      assert x in multiset(Sort(s, le)) <==> x in multiset(s);
    }
  }
}
