/** Sorting by a strict order, and the order of strings by their UTF-16 code units. */
module Ordering {

  ghost predicate StrictOrder<T(!new)>(before: (T, T) -> bool) {
    && (forall x :: !before(x, x))
    && (forall x, y, z :: before(x, y) && before(y, z) ==> before(x, z))
  }

  /** Any two entries are ordered one way or the other. */
  predicate Comparable<T>(before: (T, T) -> bool, s: seq<T>) {
    forall i, j :: 0 <= i < j < |s| ==> before(s[i], s[j]) || before(s[j], s[i])
  }

  predicate Sorted<T>(before: (T, T) -> bool, s: seq<T>) {
    forall i, j :: 0 <= i < j < |s| ==> before(s[i], s[j])
  }

  function Insert<T>(before: (T, T) -> bool, x: T, s: seq<T>): (r: seq<T>)
    ensures |r| == |s| + 1
  {
    if s == [] then [x]
    else if before(x, s[0]) then [x] + s
    else [s[0]] + Insert(before, x, s[1..])
  }

  function Sort<T>(before: (T, T) -> bool, s: seq<T>): (r: seq<T>)
    ensures |r| == |s|
  {
    if s == [] then [] else Insert(before, s[0], Sort(before, s[1..]))
  }

  lemma {:induction false} InsertKeeps<T>(before: (T, T) -> bool, x: T, s: seq<T>)
    ensures multiset(Insert(before, x, s)) == multiset(s) + multiset{x}
  {
    if s != [] {
      InsertKeeps(before, x, s[1..]);
      assert s == [s[0]] + s[1..];
    }
  }

  lemma {:induction false} SortKeeps<T>(before: (T, T) -> bool, s: seq<T>)
    ensures multiset(Sort(before, s)) == multiset(s)
  {
    if s != [] {
      SortKeeps(before, s[1..]);
      InsertKeeps(before, s[0], Sort(before, s[1..]));
      assert s == [s[0]] + s[1..];
    }
  }

  lemma SameMembers<T>(a: seq<T>, b: seq<T>)
    requires multiset(a) == multiset(b)
    ensures forall x :: x in a <==> x in b
  {
    forall x
      ensures x in a <==> x in b
    {
      assert x in a <==> x in multiset(a);
      assert x in b <==> x in multiset(b);
    }
  }

  lemma {:induction false} InsertSorts<T(!new)>(before: (T, T) -> bool, x: T, s: seq<T>)
    requires StrictOrder(before) && Sorted(before, s) && forall y :: y in s ==> before(x, y) || before(y, x)
    ensures Sorted(before, Insert(before, x, s))
  {
    if s != [] && !before(x, s[0]) {
      var rest := Insert(before, x, s[1..]);
      InsertSorts(before, x, s[1..]);
      InsertKeeps(before, x, s[1..]);
      forall j | 0 <= j < |rest|
        ensures before(s[0], rest[j])
      {
        assert rest[j] in multiset(rest);
        assert rest[j] == x || rest[j] in s[1..];
        assert before(s[0], x);
      }
    }
  }

  /** Sorting puts every pair in order. */
  lemma {:induction false} SortSorts<T(!new)>(before: (T, T) -> bool, s: seq<T>)
    requires StrictOrder(before) && Comparable(before, s)
    ensures Sorted(before, Sort(before, s))
  {
    if s != [] {
      var rest := Sort(before, s[1..]);
      SortSorts(before, s[1..]);
      SortKeeps(before, s[1..]);
      SameMembers(rest, s[1..]);
      forall y | y in rest
        ensures before(s[0], y) || before(y, s[0])
      {
        var j :| 0 <= j < |s[1..]| && s[1..][j] == y;
        assert y == s[j + 1];
      }
      InsertSorts(before, s[0], rest);
    }
  }

  lemma BeforeIsEarlier<T(!new)>(before: (T, T) -> bool, s: seq<T>, i: nat, j: nat)
    requires StrictOrder(before) && Sorted(before, s) && i < |s| && j < |s|
    ensures before(s[i], s[j]) <==> i < j
  {
  }

  /** The entries that come before a given one. */
  function Earlier<T>(before: (T, T) -> bool, s: seq<T>, y: T): set<T> {
    set x | x in s && before(x, y)
  }

  /** In a sorted sequence an entry's position is the number of entries that come before it. */
  lemma {:induction false} PositionIsRank<T(!new)>(before: (T, T) -> bool, s: seq<T>, k: nat)
    requires StrictOrder(before) && Sorted(before, s) && k < |s|
    ensures |Earlier(before, s, s[k])| == k
    decreases k
  {
    var ahead := Earlier(before, s, s[k]);
    if k == 0 {
      forall x | x in s
        ensures !before(x, s[0])
      {
        var j :| 0 <= j < |s| && s[j] == x;
        BeforeIsEarlier(before, s, j, 0);
      }
      assert ahead == {};
    } else {
      PositionIsRank(before, s, k - 1);
      var less := Earlier(before, s, s[k - 1]);
      forall x | x in s
        ensures before(x, s[k]) <==> x == s[k - 1] || before(x, s[k - 1])
      {
        var j :| 0 <= j < |s| && s[j] == x;
        BeforeIsEarlier(before, s, j, k);
        BeforeIsEarlier(before, s, j, k - 1);
      }
      assert ahead == less + {s[k - 1]};
    }
  }

  lemma SomeMember<T>(s: seq<T>) returns (x: T)
    requires s != []
    ensures x in s
  {
    x := s[0];
  }

  /** There is one way to sort: sorted sequences with the same members are equal. */
  lemma {:induction false} SortedOnce<T(!new)>(before: (T, T) -> bool, a: seq<T>, b: seq<T>)
    requires StrictOrder(before) && Sorted(before, a) && Sorted(before, b) && forall x :: x in a <==> x in b
    ensures a == b
  {
    if a == [] {
      if b != [] {
        var x := SomeMember(b);
      }
    } else {
      assert a[0] in b && b != [] && b[0] in a;
      assert a[0] == b[0] by {
        var i :| 0 <= i < |b| && b[i] == a[0];
        var j :| 0 <= j < |a| && a[j] == b[0];
        BeforeIsEarlier(before, b, 0, i);
        BeforeIsEarlier(before, a, 0, j);
      }
      forall x
        ensures x in a[1..] <==> x in b[1..]
      {
        TailMembers(before, a, x);
        TailMembers(before, b, x);
      }
      SortedOnce(before, a[1..], b[1..]);
    }
  }

  lemma TailMembers<T(!new)>(before: (T, T) -> bool, s: seq<T>, x: T)
    requires StrictOrder(before) && Sorted(before, s) && s != []
    ensures x in s[1..] <==> x in s && x != s[0]
  {
    if x in s && x != s[0] {
      var j :| 0 <= j < |s| && s[j] == x;
      assert s[1..][j - 1] == x;
    }
    if x in s[1..] {
      var j :| 0 <= j < |s[1..]| && s[1..][j] == x;
      assert before(s[0], s[j + 1]);
    }
  }

  // ----- Strings -----

  type CodeUnit = u: int | 0 <= u < 0x1_0000

  type Text = seq<CodeUnit>

  /** How the language compares strings: by code unit at the first difference, a prefix first. */
  predicate Before(a: Text, b: Text) {
    if b == [] then false
    else if a == [] then true
    else if a[0] != b[0] then a[0] < b[0]
    else Before(a[1..], b[1..])
  }

  /** The texts agree up to a place where the first ends or has the smaller unit. */
  predicate FirstDifference(a: Text, b: Text, k: nat) {
    k <= |a| && k < |b| && a[..k] == b[..k] && (k == |a| || a[k] < b[k])
  }

  lemma SameHead(a: Text, b: Text, k: nat)
    requires FirstDifference(a, b, k) && k > 0
    ensures a[0] == b[0]
  {
    assert a[..k][0] == b[..k][0];
  }

  /** Earlier is: shorter by a proper prefix, or smaller at the first difference. */
  lemma {:induction false} BeforeAtFirstDifference(a: Text, b: Text)
    ensures Before(a, b) <==> exists k :: FirstDifference(a, b, k)
  {
    if a == [] || b == [] || a[0] != b[0] {
      assert Before(a, b) ==> FirstDifference(a, b, 0);
      forall k: nat | FirstDifference(a, b, k)
        ensures k == 0
      {
        if k > 0 {
          SameHead(a, b, k);
        }
      }
    } else {
      BeforeAtFirstDifference(a[1..], b[1..]);
      forall k: nat | FirstDifference(a[1..], b[1..], k)
        ensures FirstDifference(a, b, k + 1)
      {
        assert a[..k + 1] == [a[0]] + a[1..][..k] && b[..k + 1] == [b[0]] + b[1..][..k];
      }
      forall k: nat | FirstDifference(a, b, k)
        ensures k > 0 && FirstDifference(a[1..], b[1..], k - 1)
      {
        assert a[1..][..k - 1] == a[..k][1..] && b[1..][..k - 1] == b[..k][1..];
      }
    }
  }

  lemma {:induction false} BeforeTransitive(a: Text, b: Text, c: Text)
    requires Before(a, b) && Before(b, c)
    ensures Before(a, c)
  {
    if a != [] && a[0] == b[0] == c[0] {
      BeforeTransitive(a[1..], b[1..], c[1..]);
    }
  }

  lemma {:induction false} BeforeIrreflexive(a: Text)
    ensures !Before(a, a)
  {
    if a != [] {
      BeforeIrreflexive(a[1..]);
    }
  }

  lemma {:induction false} BeforeTotal(a: Text, b: Text)
    requires a != b
    ensures Before(a, b) || Before(b, a)
  {
    if a != [] && b != [] && a[0] == b[0] {
      assert a == [a[0]] + a[1..] && b == [b[0]] + b[1..];
      BeforeTotal(a[1..], b[1..]);
    }
  }
}
