/** The library's stable `sorted` with a key order, and what makes its outcome unique. */
module Sorting {
  import opened Lists

  ghost predicate TotalPreorder<T(!new)>(le: (T, T) -> bool) {
    && (forall x, y :: le(x, y) || le(y, x))
    && (forall x, y, z :: le(x, y) && le(y, z) ==> le(x, z))
  }

  ghost predicate TotalOrder<T(!new)>(le: (T, T) -> bool) {
    && TotalPreorder(le)
    && forall x, y :: le(x, y) && le(y, x) ==> x == y
  }

  ghost predicate Sorted<T>(s: seq<T>, le: (T, T) -> bool) {
    forall i, j :: 0 <= i < j < |s| ==> le(s[i], s[j])
  }

  /** No two different members of the list tie. */
  ghost predicate NoTies<T>(s: seq<T>, le: (T, T) -> bool) {
    forall x, y :: x in s && y in s && le(x, y) && le(y, x) ==> x == y
  }

  function Insert<T>(x: T, s: seq<T>, le: (T, T) -> bool): seq<T> {
    if s == [] then [x]
    else if le(x, s[0]) then [x] + s
    else [s[0]] + Insert(x, s[1..], le)
  }

  function Sort<T>(s: seq<T>, le: (T, T) -> bool): seq<T> {
    if s == [] then [] else Insert(s[0], Sort(s[1..], le), le)
  }

  lemma {:induction false} InsertPermutes<T>(x: T, s: seq<T>, le: (T, T) -> bool)
    ensures multiset(Insert(x, s, le)) == multiset([x] + s)
  {
    if s != [] && !le(x, s[0]) {
      InsertPermutes(x, s[1..], le);
      assert s == [s[0]] + s[1..];
    }
  }

  lemma {:induction false} SortPermutes<T>(s: seq<T>, le: (T, T) -> bool)
    ensures multiset(Sort(s, le)) == multiset(s)
    ensures |Sort(s, le)| == |s|
    ensures forall x :: x in Sort(s, le) <==> x in s
  {
    if s != [] {
      SortPermutes(s[1..], le);
      InsertPermutes(s[0], Sort(s[1..], le), le);
      assert s == [s[0]] + s[1..];
    }
    assert |multiset(Sort(s, le))| == |multiset(s)|;
    forall x ensures x in Sort(s, le) <==> x in s {
      assert x in Sort(s, le) <==> x in multiset(Sort(s, le));
      assert x in s <==> x in multiset(s);
    }
  }

  lemma {:induction false} InsertSorted<T(!new)>(x: T, s: seq<T>, le: (T, T) -> bool)
    requires TotalPreorder(le) && Sorted(s, le)
    ensures Sorted(Insert(x, s, le), le)
  {
    if s != [] && !le(x, s[0]) {
      var rest := Insert(x, s[1..], le);
      InsertSorted(x, s[1..], le);
      InsertPermutes(x, s[1..], le);
      forall i | 0 <= i < |rest| ensures le(s[0], rest[i]) {
        assert rest[i] in multiset(rest);
        assert rest[i] == x || rest[i] in s[1..];
      }
    }
  }

  lemma {:induction false} SortSorts<T(!new)>(s: seq<T>, le: (T, T) -> bool)
    requires TotalPreorder(le)
    ensures Sorted(Sort(s, le), le)
  {
    if s != [] {
      SortSorts(s[1..], le);
      InsertSorted(s[0], Sort(s[1..], le), le);
    }
  }

  lemma HeadsAgree<T>(s: seq<T>, t: seq<T>, le: (T, T) -> bool)
    requires Sorted(s, le) && Sorted(t, le) && multiset(s) == multiset(t)
    requires NoTies(s, le) && s != [] && t != []
    ensures s[0] == t[0]
  {
    assert s[0] in multiset(s) && t[0] in multiset(t);
    assert s[0] in multiset(t) && t[0] in multiset(s);
    var i :| 0 <= i < |s| && s[i] == t[0];
    var j :| 0 <= j < |t| && t[j] == s[0];
    assert i > 0 ==> le(s[0], t[0]);
    assert j > 0 ==> le(t[0], s[0]);
  }

  lemma TailMultiset<T>(s: seq<T>)
    requires s != []
    ensures multiset(s[1..]) == multiset(s) - multiset{s[0]}
  {
    assert s == [s[0]] + s[1..];
  }

  /** Two sorted arrangements of the same members without ties are the same list. */
  lemma {:induction false} SortedIsUnique<T>(s: seq<T>, t: seq<T>, le: (T, T) -> bool)
    requires Sorted(s, le) && Sorted(t, le) && multiset(s) == multiset(t)
    requires NoTies(s, le)
    ensures s == t
  {
    assert |multiset(s)| == |multiset(t)|;
    if s != [] {
      HeadsAgree(s, t, le);
      TailMultiset(s);
      TailMultiset(t);
      assert NoTies(s[1..], le) by {
        forall x | x in s[1..] ensures x in s {}
      }
      SortedIsUnique(s[1..], t[1..], le);
      assert s == [s[0]] + s[1..] && t == [t[0]] + t[1..];
    }
  }

  lemma SortKeepsDistinct<T>(s: seq<T>, le: (T, T) -> bool)
    requires Distinct(s)
    ensures Distinct(Sort(s, le))
  {
    SortPermutes(s, le);
    DistinctByMultiset(s);
    DistinctByMultiset(Sort(s, le));
  }

  /** Sorting forgets the order of its input. */
  lemma SortIgnoresOrder<T(!new)>(s: seq<T>, t: seq<T>, le: (T, T) -> bool)
    requires TotalPreorder(le) && multiset(s) == multiset(t) && NoTies(s, le)
    ensures Sort(s, le) == Sort(t, le)
  {
    SortPermutes(s, le);
    SortPermutes(t, le);
    SortSorts(s, le);
    SortSorts(t, le);
    SortedIsUnique(Sort(s, le), Sort(t, le), le);
  }

  /** A nonempty finite set has a least element. */
  lemma {:induction false} LeastExists<T(!new)>(items: set<T>, le: (T, T) -> bool)
    requires TotalPreorder(le) && items != {}
    ensures exists least :: IsLeast(least, items, le)
  {
    var t :| t in items;
    var rest := items - {t};
    assert le(t, t);
    if rest == {} {
      assert items == {t};
      assert IsLeast(t, items, le);
    } else {
      LeastExists(rest, le);
      var m :| IsLeast(m, rest, le);
      if le(t, m) {
        forall x | x in rest ensures le(t, x) {
          assert le(m, x);
        }
        assert IsLeast(t, items, le);
      } else {
        assert IsLeast(m, items, le);
      }
    }
  }

  ghost predicate IsLeast<T>(least: T, items: set<T>, le: (T, T) -> bool) {
    least in items && forall x :: x in items ==> le(least, x)
  }

  /** What a prefix of a sorted list leaves out comes after all that it takes, and the prefix is full. */
  lemma PrefixComesFirst<T>(s: seq<T>, le: (T, T) -> bool, n: nat, taken: T, left: T)
    requires Sorted(s, le) && taken in Prefix(s, n) && left in s && left !in Prefix(s, n)
    ensures le(taken, left) && |Prefix(s, n)| == n
  {
    var i :| 0 <= i < |Prefix(s, n)| && Prefix(s, n)[i] == taken;
    var j :| 0 <= j < |s| && s[j] == left;
    assert forall m :: 0 <= m < |Prefix(s, n)| ==> s[m] == Prefix(s, n)[m] && Prefix(s, n)[m] in Prefix(s, n);
  }
}
