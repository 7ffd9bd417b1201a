/** Finite sets and the sorted duplicate-free lists Python's sorted(set(xs)) builds from them. */
module Ordered {

  predicate StrictlyAscending(s: seq<int>) {
    forall i, j :: 0 <= i < j < |s| ==> s[i] < s[j]
  }

  function Members(s: seq<int>): set<int> {
    set x | x in s
  }

  lemma MembersAppend(s: seq<int>, x: int)
    ensures Members(s + [x]) == Members(s) + {x}
  {
  }

  lemma Pick<T>(s: set<T>) returns (x: T)
    requires s != {}
    ensures x in s
  {
    x :| x in s;
  }

  /** r lists the elements of s in increasing order, each once. */
  predicate Lists(r: seq<int>, s: set<int>) {
    StrictlyAscending(r) && Members(r) == s
  }

  /** sorted(s) */
  method Sorted(s: set<int>) returns (r: seq<int>)
    ensures r == Ascending(s)
  {
    r := [];
    var rest := s;
    while rest != {}
      invariant Members(r) + rest == s
      invariant StrictlyAscending(r)
      invariant r != [] ==> forall x :: x in rest ==> r[|r| - 1] < x
    {
      var least := Least(rest);
      MembersAppend(r, least);
      r := r + [least];
      rest := rest - {least};
    }
    assert Members(r) == s;
    AscendingOfMembers(r);
  }

  method Least(s: set<int>) returns (least: int)
    requires s != {}
    ensures least in s && forall x :: x in s ==> least <= x
  {
    ghost var some := Pick(s);
    least :| least in s;
    var rest := s - {least};
    while rest != {}
      invariant rest <= s && least in s
      invariant forall x :: x in s && x !in rest ==> least <= x
    {
      some := Pick(rest);
      var x :| x in rest;
      if x < least {
        least := x;
      }
      rest := rest - {x};
    }
  }

  lemma {:induction false} ListExists(s: set<int>)
    ensures exists r :: Lists(r, s)
    decreases |s|
  {
    if s == {} {
      assert Lists([], s);
    } else {
      var m := Greatest(s);
      ListExists(s - {m});
      var front :| Lists(front, s - {m});
      MembersAppend(front, m);
      forall i | 0 <= i < |front| ensures front[i] < m {
        assert front[i] in Members(front);
      }
      assert Lists(front + [m], s);
    }
  }

  lemma {:induction false} Greatest(s: set<int>) returns (m: int)
    requires s != {}
    ensures m in s && forall x :: x in s ==> x <= m
    decreases |s|
  {
    var some := Pick(s);
    assert forall x :: x in s ==> x == some || x in s - {some};
    m := some;
    if s - {some} != {} {
      var n := Greatest(s - {some});
      m := if n < some then some else n;
    }
  }

  /** The elements of s in increasing order. */
  ghost function Ascending(s: set<int>): (r: seq<int>)
    ensures Lists(r, s)
  {
    ListExists(s);
    var r :| Lists(r, s);
    r
  }

  lemma AscendingAt(s: set<int>)
    ensures forall i :: 0 <= i < |Ascending(s)| ==> Ascending(s)[i] in s
  {
    var r := Ascending(s);
    forall i | 0 <= i < |r| ensures r[i] in s {
      assert r[i] in Members(r);
    }
  }

  lemma PositionOf(s: set<int>, x: int) returns (i: nat)
    requires x in s
    ensures i < |Ascending(s)| && Ascending(s)[i] == x
  {
    assert x in Members(Ascending(s));
    i :| i < |Ascending(s)| && Ascending(s)[i] == x;
  }

  lemma NoMembers(s: seq<int>)
    ensures Members(s) == {} <==> s == []
  {
    if s != [] {
      assert s[0] in Members(s);
    }
  }

  lemma {:induction false} MembersSize(s: seq<int>)
    requires StrictlyAscending(s)
    ensures |Members(s)| == |s|
  {
    if s != [] {
      var front, last := s[..|s| - 1], s[|s| - 1];
      MembersSize(front);
      assert s == front + [last];
      MembersAppend(front, last);
    }
  }

  /** An ascending list is determined by its members. */
  lemma {:induction false} AscendingUnique(a: seq<int>, b: seq<int>)
    requires StrictlyAscending(a) && StrictlyAscending(b)
    requires Members(a) == Members(b)
    ensures a == b
  {
    NoMembers(a);
    NoMembers(b);
    if a != [] && b != [] {
      assert a[0] in Members(b) && b[0] in Members(a);
      assert a[0] == b[0];
      forall x ensures x in Members(a[1..]) <==> x in Members(b[1..]) {
        assert x in Members(a[1..]) <==> x in Members(a) && x != a[0];
        assert x in Members(b[1..]) <==> x in Members(b) && x != b[0];
      }
      AscendingUnique(a[1..], b[1..]);
      assert a == [a[0]] + a[1..] && b == [b[0]] + b[1..];
    }
  }

  lemma AscendingOfMembers(a: seq<int>)
    requires StrictlyAscending(a)
    ensures Ascending(Members(a)) == a && |Members(a)| == |a|
  {
    AscendingUnique(Ascending(Members(a)), a);
    MembersSize(a);
  }

  /** range(lo, hi) as a list. */
  function Range(lo: int, hi: int): (r: seq<int>)
    ensures StrictlyAscending(r)
    ensures forall x :: x in r <==> lo <= x < hi
    decreases hi - lo
  {
    if hi <= lo then []
    else
      var rest := Range(lo + 1, hi);
      assert forall i :: 0 <= i < |rest| ==> rest[i] in rest;
      [lo] + rest
  }

  lemma {:induction false} SubsetSize<T>(a: set<T>, b: set<T>)
    requires a <= b
    ensures |a| <= |b|
  {
    if a != {} {
      var x := Pick(a);
      SubsetSize(a - {x}, b - {x});
    }
  }

  lemma SubtractSize<T>(a: set<T>, b: set<T>)
    requires b <= a
    ensures |a - b| == |a| - |b|
  {
    assert a == (a - b) + b;
  }

  predicate Between(lo: int, x: int, hi: int) {
    lo <= x <= hi
  }

  /** The integers lo..hi, both included. */
  function Interval(lo: int, hi: int): (s: set<int>)
    ensures forall x :: x in s <==> lo <= x <= hi
  {
    set x | lo <= x <= hi && Between(lo, x, hi)
  }

  lemma {:induction false} IntervalSize(lo: int, hi: int)
    ensures |Interval(lo, hi)| == if lo <= hi then hi - lo + 1 else 0
    decreases hi - lo
  {
    if lo <= hi {
      IntervalSize(lo, hi - 1);
      assert Interval(lo, hi) == Interval(lo, hi - 1) + {hi};
    } else {
      assert Interval(lo, hi) == {};
    }
  }
}
