/** List functions shared by the components: filtering, summing, duplicates and stable sorting. */
module Sequences {

  datatype Option<+T> = None | Some(value: T)

  /** `Array.prototype.filter`: defined from the last element so that it follows a left-to-right loop. */
  function Filter<T(!new)>(s: seq<T>, p: T -> bool): (r: seq<T>)
    ensures |r| <= |s|
    ensures forall x :: x in r <==> x in s && p(x)
  {
    if s == [] then []
    else
      var front := Filter(s[..|s| - 1], p);
      assert s == s[..|s| - 1] + [s[|s| - 1]];
      if p(s[|s| - 1]) then front + [s[|s| - 1]] else front
  }

  function Map<T, U>(s: seq<T>, f: T -> U): (r: seq<U>)
    ensures |r| == |s|
    ensures forall i :: 0 <= i < |s| ==> r[i] == f(s[i])
  {
    seq(|s|, i requires 0 <= i < |s| => f(s[i]))
  }

  function Sum(s: seq<nat>): nat
  {
    if s == [] then 0 else Sum(s[..|s| - 1]) + s[|s| - 1]
  }

  function Elements<T>(s: seq<T>): set<T>
  {
    set x | x in s
  }

  predicate NoDup<T(==)>(s: seq<T>)
  {
    forall i, j :: 0 <= i < j < |s| ==> s[i] != s[j]
  }

  /** Wherever both are in the list, `a` stands before `b`. */
  ghost predicate Precedes<T>(s: seq<T>, a: T, b: T)
  {
    forall i, j :: 0 <= i < |s| && 0 <= j < |s| && s[i] == a && s[j] == b ==> i < j
  }

  /** The position of the first element satisfying `p`, or -1: `Array.prototype.findIndex`. */
  function FindIndex<T>(s: seq<T>, p: T -> bool): (r: int)
    ensures -1 <= r < |s|
    ensures r >= 0 ==> p(s[r])
    ensures forall i :: 0 <= i < (if r < 0 then |s| else r) ==> !p(s[i])
  {
    if s == [] then -1
    else
      var front := FindIndex(s[..|s| - 1], p);
      if front >= 0 then front else if p(s[|s| - 1]) then |s| - 1 else -1
  }

  // ---------------------------------------------------------------- filtering

  lemma {:induction false} FilterConcat<T(!new)>(a: seq<T>, b: seq<T>, p: T -> bool)
    ensures Filter(a + b, p) == Filter(a, p) + Filter(b, p)
  {
    if b == [] {
      assert a + b == a;
    } else {
      FilterConcat(a, b[..|b| - 1], p);
      assert (a + b)[..|a + b| - 1] == a + b[..|b| - 1];
    }
  }

  lemma FilterSnoc<T(!new)>(s: seq<T>, x: T, p: T -> bool)
    ensures Filter(s + [x], p) == if p(x) then Filter(s, p) + [x] else Filter(s, p)
  {
    assert (s + [x])[..|s + [x]| - 1] == s;
  }

  lemma {:induction false} FilterAgree<T(!new)>(s: seq<T>, p: T -> bool, q: T -> bool)
    requires forall x :: x in s ==> p(x) == q(x)
    ensures Filter(s, p) == Filter(s, q)
  {
    if s != [] {
      assert forall x :: x in s[..|s| - 1] ==> x in s;
      FilterAgree(s[..|s| - 1], p, q);
    }
  }

  lemma {:induction false} FilterAll<T(!new)>(s: seq<T>, p: T -> bool)
    requires forall x :: x in s ==> p(x)
    ensures Filter(s, p) == s
  {
    if s != [] {
      assert forall x :: x in s[..|s| - 1] ==> x in s;
      FilterAll(s[..|s| - 1], p);
      assert s == s[..|s| - 1] + [s[|s| - 1]];
    }
  }

  lemma {:induction false} FilterNone<T(!new)>(s: seq<T>, p: T -> bool)
    requires forall x :: x in s ==> !p(x)
    ensures Filter(s, p) == []
  {
    if s != [] {
      assert forall x :: x in s[..|s| - 1] ==> x in s;
      FilterNone(s[..|s| - 1], p);
    }
  }

  lemma {:induction false} FilterFilter<T(!new)>(s: seq<T>, p: T -> bool, q: T -> bool)
    ensures Filter(Filter(s, p), q) == Filter(s, x => p(x) && q(x))
  {
    if s != [] {
      FilterFilter(s[..|s| - 1], p, q);
      FilterSnoc(Filter(s[..|s| - 1], p), s[|s| - 1], q);
    }
  }

  lemma FilterTwice<T(!new)>(s: seq<T>, p: T -> bool, q: T -> bool, r: T -> bool)
    requires forall x :: r(x) <==> p(x) && q(x)
    ensures Filter(Filter(s, p), q) == Filter(s, r)
  {
    FilterFilter(s, p, q);
    FilterAgree(s, x => p(x) && q(x), r);
  }

  lemma {:induction false} FilterNoDup<T(!new)>(s: seq<T>, p: T -> bool)
    requires NoDup(s)
    ensures NoDup(Filter(s, p))
  {
    if s != [] {
      var front, x := s[..|s| - 1], s[|s| - 1];
      FilterNoDup(front, p);
      assert x !in front;
    }
  }

  /** The first element kept is the first one that satisfies `p`. */
  lemma {:induction false} FilterFirst<T(!new)>(s: seq<T>, p: T -> bool) returns (k: nat)
    requires Filter(s, p) != []
    ensures k < |s| && s[k] == Filter(s, p)[0] && p(s[k]) && forall l :: 0 <= l < k ==> !p(s[l])
  {
    var front := s[..|s| - 1];
    if Filter(front, p) != [] {
      k := FilterFirst(front, p);
    } else {
      k := |s| - 1;
      forall l | 0 <= l < k ensures !p(s[l]) {
        assert front[l] in front;
      }
    }
  }

  /** What is kept stands in the order of the list. */
  lemma {:induction false} FilterOrder<T(!new)>(s: seq<T>, p: T -> bool, i: nat, j: nat, a: nat, b: nat)
    requires NoDup(s) && i < j < |Filter(s, p)| && a < |s| && b < |s|
    requires s[a] == Filter(s, p)[i] && s[b] == Filter(s, p)[j]
    ensures a < b
  {
    var front, last := s[..|s| - 1], s[|s| - 1];
    FilterNoDup(s, p);
    if b < |s| - 1 {
      assert front[b] == s[b] && s[b] != last;
      assert last !in front;
      assert s[a] in Filter(front, p);
      FilterOrder(front, p, i, j, a, b);
    }
  }

  /** A list splits into the elements that satisfy `p` and those that do not. */
  lemma {:induction false} FilterSplit<T(!new)>(s: seq<T>, p: T -> bool, q: T -> bool)
    requires forall x :: q(x) <==> !p(x)
    ensures multiset(Filter(s, p)) + multiset(Filter(s, q)) == multiset(s)
    ensures |Filter(s, p)| + |Filter(s, q)| == |s|
  {
    if s != [] {
      FilterSplit(s[..|s| - 1], p, q);
      assert s == s[..|s| - 1] + [s[|s| - 1]];
    }
  }

  // ---------------------------------------------------------------- duplicates and sizes

  lemma {:induction false} NoDupSize<T>(s: seq<T>)
    requires NoDup(s)
    ensures |Elements(s)| == |s|
  {
    if s != [] {
      var front, x := s[..|s| - 1], s[|s| - 1];
      NoDupSize(front);
      assert x !in front;
      assert Elements(s) == Elements(front) + {x};
    }
  }

  lemma SubsetSize<T>(a: set<T>, b: set<T>)
    requires a <= b
    ensures |a| <= |b|
  {
    assert b == a + (b - a);
  }

  lemma NoDupWithin<T>(s: seq<T>, bound: set<T>)
    requires NoDup(s)
    requires forall x :: x in s ==> x in bound
    ensures |s| <= |bound|
  {
    NoDupSize(s);
    SubsetSize(Elements(s), bound);
  }

  lemma PrefixSnoc<T>(s: seq<T>, i: nat)
    requires i < |s|
    ensures s[..i + 1] == s[..i] + [s[i]]
  {
  }

  lemma MapSnoc<T, U>(s: seq<T>, x: T, f: T -> U)
    ensures Map(s + [x], f) == Map(s, f) + [f(x)]
  {
  }

  /** Each operation leads from one state to the one behind it. */
  ghost predicate Steps<S(!new), O(!new)>(ops: seq<O>, states: seq<S>, leads: (S, O, S) -> bool)
  {
    |states| == |ops| + 1 && forall i :: 0 <= i < |ops| ==> leads(states[i], ops[i], states[i + 1])
  }

  lemma StepsGrow<S(!new), O(!new)>(ops: seq<O>, states: seq<S>, leads: (S, O, S) -> bool, op: O, state: S)
    requires Steps(ops, states, leads) && leads(states[|ops|], op, state)
    ensures Steps(ops + [op], states + [state], leads)
  {
    forall i | 0 <= i <= |ops| ensures leads((states + [state])[i], (ops + [op])[i], (states + [state])[i + 1]) {
    }
  }

  /** What one step keeps lasts from any point on. */
  lemma {:induction false} Persists(holds: nat -> bool, i: nat, n: nat)
    requires i <= n && holds(i) && forall k :: i <= k < n && holds(k) ==> holds(k + 1)
    ensures holds(n)
  {
    if i < n {
      Persists(holds, i, n - 1);
    }
  }

  /** Filtering what a list is mapped to is mapping what is left of it. */
  lemma {:induction false} FilterOfMap<T(!new), U(!new)>(s: seq<T>, f: T -> U, q: U -> bool, p: T -> bool)
    requires forall x :: q(f(x)) == p(x)
    ensures Filter(Map(s, f), q) == Map(Filter(s, p), f)
  {
    if s != [] {
      var front, last := s[..|s| - 1], s[|s| - 1];
      assert s == front + [last];
      FilterOfMap(front, f, q, p);
      MapSnoc(front, last, f);
      FilterSnoc(Map(front, f), f(last), q);
    }
  }

  // ---------------------------------------------------------------- stable sorting

  /** What a comparator must satisfy for a sort to be meaningful. */
  ghost predicate TotalPreorder<T(!new)>(leq: (T, T) -> bool)
  {
    && (forall a, b :: leq(a, b) || leq(b, a))
    && (forall a, b, c :: leq(a, b) && leq(b, c) ==> leq(a, c))
  }

  ghost predicate Sorted<T>(s: seq<T>, leq: (T, T) -> bool)
  {
    forall i, j :: 0 <= i < j < |s| ==> leq(s[i], s[j])
  }

  /** Inserts `x` after every element that may precede it. */
  function Insert<T>(s: seq<T>, x: T, leq: (T, T) -> bool): (r: seq<T>)
    ensures |r| == |s| + 1
    ensures multiset(r) == multiset(s) + multiset{x}
  {
    if s == [] || leq(s[|s| - 1], x) then s + [x]
    else
      assert s == s[..|s| - 1] + [s[|s| - 1]];
      Insert(s[..|s| - 1], x, leq) + [s[|s| - 1]]
  }

  /** `Array.prototype.sort`, which is stable: equivalent elements keep their order. */
  function Sort<T>(s: seq<T>, leq: (T, T) -> bool): (r: seq<T>)
    ensures |r| == |s|
    ensures multiset(r) == multiset(s)
  {
    if s == [] then []
    else
      assert s == s[..|s| - 1] + [s[|s| - 1]];
      Insert(Sort(s[..|s| - 1], leq), s[|s| - 1], leq)
  }

  lemma SortTwo<T>(x: T, y: T, leq: (T, T) -> bool)
    ensures Sort([x, y], leq) == if leq(x, y) then [x, y] else [y, x]
  {
    assert [x, y][..1] == [x] && [x][..0] == [];
    assert Sort([x], leq) == [x];
    assert Insert([x], y, leq) == if leq(x, y) then [x, y] else [y, x];
  }

  lemma MultisetElements<T>(a: seq<T>, b: seq<T>)
    requires multiset(a) == multiset(b)
    ensures |a| == |b|
    ensures forall x :: x in a <==> x in b
    ensures Elements(a) == Elements(b)
  {
    assert |multiset(a)| == |a| && |multiset(b)| == |b|;
    forall x ensures x in a <==> x in b {
      assert x in a <==> x in multiset(a);
      assert x in b <==> x in multiset(b);
    }
  }

  lemma {:induction false} InsertSorted<T(!new)>(s: seq<T>, x: T, leq: (T, T) -> bool)
    requires TotalPreorder(leq) && Sorted(s, leq)
    ensures Sorted(Insert(s, x, leq), leq)
  {
    if s == [] {
    } else if leq(s[|s| - 1], x) {
      forall i | 0 <= i < |s| ensures leq(s[i], x) {
        assert i < |s| - 1 ==> leq(s[i], s[|s| - 1]);
      }
    } else {
      var front, last := s[..|s| - 1], s[|s| - 1];
      InsertSorted(front, x, leq);
      var r := Insert(front, x, leq);
      forall i | 0 <= i < |r| ensures leq(r[i], last) {
        assert r[i] in multiset(r);
        assert r[i] == x || r[i] in front;
      }
    }
  }

  lemma {:induction false} SortSorted<T(!new)>(s: seq<T>, leq: (T, T) -> bool)
    requires TotalPreorder(leq)
    ensures Sorted(Sort(s, leq), leq)
  {
    if s != [] {
      SortSorted(s[..|s| - 1], leq);
      InsertSorted(Sort(s[..|s| - 1], leq), s[|s| - 1], leq);
    }
  }

  lemma SortElements<T>(s: seq<T>, leq: (T, T) -> bool)
    ensures forall x :: x in Sort(s, leq) <==> x in s
    ensures Elements(Sort(s, leq)) == Elements(s)
  {
    MultisetElements(s, Sort(s, leq));
  }

  lemma NoDupMultiset<T>(s: seq<T>)
    ensures NoDup(s) <==> forall x :: multiset(s)[x] <= 1
  {
    if NoDup(s) {
      NoDupCounts(s);
    } else {
      var i, j :| 0 <= i < j < |s| && s[i] == s[j];
      var x := s[i];
      assert s == s[..i] + [x] + s[i + 1..j] + [x] + s[j + 1..];
      assert multiset(s)[x] >= 2;
    }
  }

  lemma {:induction false} NoDupCounts<T>(s: seq<T>)
    requires NoDup(s)
    ensures forall x :: multiset(s)[x] <= 1
  {
    if s != [] {
      var front, last := s[..|s| - 1], s[|s| - 1];
      NoDupCounts(front);
      assert s == front + [last];
      assert last !in front;
      assert multiset(s) == multiset(front) + multiset{last};
      assert last !in multiset(front);
    }
  }

  lemma SortNoDup<T>(s: seq<T>, leq: (T, T) -> bool)
    requires NoDup(s)
    ensures NoDup(Sort(s, leq))
  {
    NoDupMultiset(s);
    NoDupMultiset(Sort(s, leq));
  }

  /** A sorted list is a fixed point of the sort. */
  lemma {:induction false} SortFixed<T>(s: seq<T>, leq: (T, T) -> bool)
    requires Sorted(s, leq)
    ensures Sort(s, leq) == s
  {
    if s != [] {
      var front, last := s[..|s| - 1], s[|s| - 1];
      SortFixed(front, leq);
      assert front + [last] == s;
      InsertAtEnd(front, last, leq);
      assert Sort(s, leq) == Insert(front, last, leq);
    }
  }

  lemma InsertAtEnd<T>(s: seq<T>, x: T, leq: (T, T) -> bool)
    requires Sorted(s + [x], leq)
    ensures Insert(s, x, leq) == s + [x]
  {
    if s != [] {
      assert leq((s + [x])[|s| - 1], (s + [x])[|s|]);
    }
  }

  /** Two strictly sorted lists with the same elements are the same list. */
  lemma {:induction false} SortedUnique<T>(a: seq<T>, b: seq<T>, leq: (T, T) -> bool)
    requires Sorted(a, leq) && Sorted(b, leq)
    requires NoDup(a) && NoDup(b) && Elements(a) == Elements(b)
    requires forall x, y :: x in a && y in a && leq(x, y) && leq(y, x) ==> x == y
    ensures a == b
  {
    NoDupSize(a);
    NoDupSize(b);
    if a != [] {
      var x, y := a[|a| - 1], b[|b| - 1];
      assert x in Elements(b) && y in Elements(a);
      assert x == y;
      var a', b' := a[..|a| - 1], b[..|b| - 1];
      assert Elements(a') == Elements(a) - {x};
      assert Elements(b') == Elements(b) - {x};
      forall u, v | u in a' && v in a' && leq(u, v) && leq(v, u) ensures u == v {
        assert u in a && v in a;
      }
      SortedUnique(a', b', leq);
      assert a == a' + [x] && b == b' + [x];
    }
  }
}
