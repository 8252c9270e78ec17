/** Stable sorting by a strict weak order, and selection from a sequence. */
module Sorting {
  /** `lt` orders by some key; elements with equal keys are incomparable. */
  ghost predicate StrictWeak<T(!new)>(lt: (T, T) -> bool) {
    && (forall x, y :: lt(x, y) ==> !lt(y, x))
    && (forall x, y, z :: lt(x, z) ==> lt(x, y) || lt(y, z))
  }

  /** `x` moved left from the end of `s` past everything greater. */
  function Insert<T>(lt: (T, T) -> bool, s: seq<T>, x: T): (r: seq<T>)
    ensures |r| == |s| + 1
    ensures multiset(r) == multiset(s) + multiset{x}
  {
    if s == [] then [x]
    else
      var last := s[|s| - 1];
      assert s == s[..|s| - 1] + [last];
      if lt(x, last) then Insert(lt, s[..|s| - 1], x) + [last] else s + [x]
  }

  function Sort<T>(lt: (T, T) -> bool, s: seq<T>): (r: seq<T>)
    ensures |r| == |s|
    ensures multiset(r) == multiset(s)
  {
    if s == [] then []
    else
      assert s == s[..|s| - 1] + [s[|s| - 1]];
      Insert(lt, Sort(lt, s[..|s| - 1]), s[|s| - 1])
  }

  /** No element is followed by a smaller one. */
  ghost predicate Sorted<T>(lt: (T, T) -> bool, s: seq<T>) {
    forall i, j :: 0 <= i < j < |s| ==> !lt(s[j], s[i])
  }

  /** The elements of `s` with the same key as `x`, in the order of `s`. */
  function Class<T>(lt: (T, T) -> bool, s: seq<T>, x: T): seq<T> {
    if s == [] then []
    else
      var last := s[|s| - 1];
      Class(lt, s[..|s| - 1], x) + (if !lt(x, last) && !lt(last, x) then [last] else [])
  }

  lemma {:induction false} ClassMembers<T(!new)>(lt: (T, T) -> bool, s: seq<T>, x: T, y: T)
    ensures y in Class(lt, s, x) <==> y in s && !lt(x, y) && !lt(y, x)
  {
    if s != [] {
      assert s == s[..|s| - 1] + [s[|s| - 1]];
      ClassMembers(lt, s[..|s| - 1], x, y);
    }
  }

  lemma MembersOf<T(!new)>(s: seq<T>, t: seq<T>, x: T)
    requires multiset(t) == multiset(s) + multiset{x}
    ensures forall y :: y in t ==> y in s || y == x
  {
    forall y | y in t ensures y in s || y == x {
      assert y in multiset(t);
    }
  }

  lemma SortedSnoc<T(!new)>(lt: (T, T) -> bool, s: seq<T>, last: T)
    requires Sorted(lt, s) && forall y :: y in s ==> !lt(last, y)
    ensures Sorted(lt, s + [last])
  {
  }

  lemma {:induction false} InsertSorts<T(!new)>(lt: (T, T) -> bool, s: seq<T>, x: T)
    requires StrictWeak(lt) && Sorted(lt, s)
    ensures Sorted(lt, Insert(lt, s, x))
  {
    hide StrictWeak;
    if s != [] {
      var front, last := s[..|s| - 1], s[|s| - 1];
      if lt(x, last) {
        InsertSorts(lt, front, x);
        MembersOf(front, Insert(lt, front, x), x);
        assert s == front + [last];
        LastIsGreatest(lt, front, last);
        NotBelow(lt, x, last);
        hide Sorted;
        SortedSnoc(lt, Insert(lt, front, x), last);
      } else {
        forall y | y in s ensures !lt(x, y) {
          NotBelowMember(lt, s, x, y);
        }
        hide Sorted;
        SortedSnoc(lt, s, x);
      }
    }
  }

  lemma LastIsGreatest<T(!new)>(lt: (T, T) -> bool, front: seq<T>, last: T)
    requires Sorted(lt, front + [last])
    ensures forall y :: y in front ==> !lt(last, y)
  {
    var s := front + [last];
    forall y | y in front ensures !lt(last, y) {
      var i :| 0 <= i < |front| && front[i] == y;
      assert s[i] == y && s[|front|] == last;
    }
  }

  lemma NotBelow<T(!new)>(lt: (T, T) -> bool, x: T, y: T)
    requires StrictWeak(lt) && lt(x, y)
    ensures !lt(y, x)
  {
  }

  lemma NotBelowMember<T(!new)>(lt: (T, T) -> bool, s: seq<T>, x: T, y: T)
    requires StrictWeak(lt) && Sorted(lt, s) && y in s && !lt(x, s[|s| - 1])
    ensures !lt(x, y)
  {
    assert !lt(s[|s| - 1], y);
  }

  /** Sorting sorts. */
  lemma {:induction false} SortSorts<T(!new)>(lt: (T, T) -> bool, s: seq<T>)
    requires StrictWeak(lt)
    ensures Sorted(lt, Sort(lt, s))
  {
    if s != [] {
      SortSorts(lt, s[..|s| - 1]);
      InsertSorts(lt, Sort(lt, s[..|s| - 1]), s[|s| - 1]);
    }
  }

  lemma ClassSnoc<T>(lt: (T, T) -> bool, s: seq<T>, last: T, x: T)
    ensures Class(lt, s + [last], x) == Class(lt, s, x) + (if !lt(x, last) && !lt(last, x) then [last] else [])
  {
    assert (s + [last])[..|s|] == s;
  }

  lemma {:induction false} InsertIsStable<T(!new)>(lt: (T, T) -> bool, s: seq<T>, y: T, x: T)
    requires StrictWeak(lt)
    ensures Class(lt, Insert(lt, s, y), x) == Class(lt, s + [y], x)
  {
    hide Class;
    if s != [] {
      var front, last := s[..|s| - 1], s[|s| - 1];
      assert s == front + [last];
      if lt(y, last) {
        InsertIsStable(lt, front, y, x);
        ClassSnoc(lt, Insert(lt, front, y), last, x);
        ClassSnoc(lt, front, y, x);
        ClassSnoc(lt, front, last, x);
        ClassSnoc(lt, s, y, x);
      }
    } else {
      assert s + [y] == [y];
    }
  }

  /** Sorting keeps elements with equal keys in their order. */
  lemma {:induction false} SortIsStable<T(!new)>(lt: (T, T) -> bool, s: seq<T>, x: T)
    requires StrictWeak(lt)
    ensures Class(lt, Sort(lt, s), x) == Class(lt, s, x)
  {
    hide Class;
    if s != [] {
      var front, last := s[..|s| - 1], s[|s| - 1];
      assert s == front + [last];
      SortIsStable(lt, front, x);
      InsertIsStable(lt, Sort(lt, front), last, x);
      ClassSnoc(lt, Sort(lt, front), last, x);
      ClassSnoc(lt, front, last, x);
    }
  }

  /** Sorting leaves a sorted sequence alone. */
  lemma {:induction false} SortIdempotent<T(!new)>(lt: (T, T) -> bool, s: seq<T>)
    requires Sorted(lt, s)
    ensures Sort(lt, s) == s
  {
    if s != [] {
      SortIdempotent(lt, s[..|s| - 1]);
    }
  }

  lemma MaxOfClass<T(!new)>(lt: (T, T) -> bool, s: seq<T>)
    requires s != []
    ensures var last := s[|s| - 1]; StrictWeak(lt) ==> Class(lt, s, last) == Class(lt, s[..|s| - 1], last) + [last]
  {
  }

  /** A sorted sequence is determined by its key classes: stable sorting has one possible result. */
  lemma {:induction false} SortedUnique<T(!new)>(lt: (T, T) -> bool, s: seq<T>, t: seq<T>)
    requires StrictWeak(lt) && Sorted(lt, s) && Sorted(lt, t)
    requires forall x :: Class(lt, s, x) == Class(lt, t, x)
    ensures s == t
  {
    hide Class;
    if s == [] || t == [] {
      if s != [] {
        ClassMembers(lt, s, s[0], s[0]);
        ClassMembers(lt, t, s[0], s[0]);
      }
      if t != [] {
        ClassMembers(lt, s, t[0], t[0]);
        ClassMembers(lt, t, t[0], t[0]);
      }
    } else {
      var x, y := s[|s| - 1], t[|t| - 1];
      ClassMembers(lt, s, x, x);
      ClassMembers(lt, t, x, x);
      ClassMembers(lt, s, y, y);
      ClassMembers(lt, t, y, y);
      assert !lt(y, x) && !lt(x, y);
      MaxOfClass(lt, s);
      MaxOfClass(lt, t);
      SameClass(lt, t, x, y);
      assert Class(lt, t, x)[|Class(lt, t, x)| - 1] == y;
      assert x == y;
      var s', t' := s[..|s| - 1], t[..|t| - 1];
      forall z ensures Class(lt, s', z) == Class(lt, t', z) {
        assert s == s' + [x] && t == t' + [x];
        ClassSnoc(lt, s', x, z);
        ClassSnoc(lt, t', x, z);
        assert Class(lt, s, z) == Class(lt, t, z);
        var tail := if !lt(z, x) && !lt(x, z) then [x] else [];
        assert Class(lt, s', z) + tail == Class(lt, t', z) + tail;
        DropTail(Class(lt, s', z), Class(lt, t', z), tail);
      }
      SortedUnique(lt, s', t');
    }
  }

  lemma DropTail<T>(a: seq<T>, b: seq<T>, tail: seq<T>)
    requires a + tail == b + tail
    ensures a == b
  {
    assert |a| == |b|;
    assert (a + tail)[..|a|] == a && (b + tail)[..|b|] == b;
  }

  lemma {:induction false} SameClass<T(!new)>(lt: (T, T) -> bool, s: seq<T>, x: T, y: T)
    requires StrictWeak(lt) && !lt(x, y) && !lt(y, x)
    ensures Class(lt, s, x) == Class(lt, s, y)
  {
    if s != [] {
      SameClass(lt, s[..|s| - 1], x, y);
    }
  }
}
