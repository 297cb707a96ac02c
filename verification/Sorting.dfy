/** Python's stable sort: what it keeps, and what its result depends on. */
module Sorting {
  /** A strict weak order. */
  ghost predicate WeakOrder<T(!new)>(less: (T, T) -> bool) {
    && (forall a, b :: less(a, b) ==> !less(b, a))
    && (forall a, b, c :: !less(b, a) && !less(c, b) ==> !less(c, a))
  }

  ghost predicate TotalOrder<T(!new)>(less: (T, T) -> bool) {
    forall a, b :: less(a, b) || less(b, a) || a == b
  }

  /** Behind every element that is not greater. */
  function Insert<T>(less: (T, T) -> bool, s: seq<T>, x: T): seq<T> {
    if s == [] || !less(x, s[|s| - 1]) then s + [x]
    else Insert(less, s[..|s| - 1], x) + [s[|s| - 1]]
  }

  function Sort<T>(less: (T, T) -> bool, s: seq<T>): seq<T> {
    if s == [] then [] else Insert(less, Sort(less, s[..|s| - 1]), s[|s| - 1])
  }

  predicate InOrder<T>(less: (T, T) -> bool, s: seq<T>) {
    forall i, j | 0 <= i < j < |s| :: !less(s[j], s[i])
  }

  lemma {:induction false} InsertKeeps<T>(less: (T, T) -> bool, s: seq<T>, x: T)
    ensures multiset(Insert(less, s, x)) == multiset(s) + multiset{x}
  {
    if s != [] && less(x, s[|s| - 1]) {
      var pre, last := s[..|s| - 1], s[|s| - 1];
      InsertKeeps(less, pre, x);
      assert s == pre + [last];
      assert multiset(s) == multiset(pre) + multiset{last};
    }
  }

  lemma OrderExtends<T>(less: (T, T) -> bool, s: seq<T>, x: T)
    requires InOrder(less, s) && forall i | 0 <= i < |s| :: !less(x, s[i])
    ensures InOrder(less, s + [x])
  {
  }

  lemma {:induction false} InsertOrders<T(!new)>(less: (T, T) -> bool, s: seq<T>, x: T)
    requires WeakOrder(less) && InOrder(less, s)
    ensures InOrder(less, Insert(less, s, x))
  {
    if s == [] || !less(x, s[|s| - 1]) {
      OrderExtends(less, s, x);
    } else {
      var pre, last := s[..|s| - 1], s[|s| - 1];
      var r := Insert(less, pre, x);
      InsertOrders(less, pre, x);
      InsertKeeps(less, pre, x);
      forall i | 0 <= i < |r| ensures !less(last, r[i]) {
        assert r[i] in multiset(r);
        assert r[i] in pre || r[i] == x;
      }
      OrderExtends(less, r, last);
    }
  }

  lemma {:induction false} SortKeeps<T>(less: (T, T) -> bool, s: seq<T>)
    ensures multiset(Sort(less, s)) == multiset(s) && |Sort(less, s)| == |s|
  {
    if s != [] {
      var pre, x := s[..|s| - 1], s[|s| - 1];
      SortKeeps(less, pre);
      InsertKeeps(less, Sort(less, pre), x);
      assert s == pre + [x];
    }
    assert |Sort(less, s)| == |multiset(s)| == |s|;
  }

  lemma {:induction false} SortOrders<T(!new)>(less: (T, T) -> bool, s: seq<T>)
    requires WeakOrder(less)
    ensures InOrder(less, Sort(less, s))
  {
    if s != [] {
      SortOrders(less, s[..|s| - 1]);
      InsertOrders(less, Sort(less, s[..|s| - 1]), s[|s| - 1]);
    }
  }

  // ----- one order of a total order -----

  lemma WithoutLast<T>(s: seq<T>)
    requires s != []
    ensures s == s[..|s| - 1] + [s[|s| - 1]]
    ensures multiset(s[..|s| - 1]) == multiset(s) - multiset{s[|s| - 1]}
  {
    assert s == s[..|s| - 1] + [s[|s| - 1]];
  }

  lemma SameLast<T(!new)>(less: (T, T) -> bool, p: seq<T>, q: seq<T>)
    requires WeakOrder(less) && TotalOrder(less) && InOrder(less, p) && InOrder(less, q)
    requires p != [] && q != [] && multiset(p) == multiset(q)
    ensures p[|p| - 1] == q[|q| - 1]
  {
    var a, b := p[|p| - 1], q[|q| - 1];
    assert a in multiset(q) && b in multiset(p);
    var i :| 0 <= i < |p| && p[i] == b;
    var j :| 0 <= j < |q| && q[j] == a;
  }

  lemma {:induction false} OrderIsUnique<T(!new)>(less: (T, T) -> bool, p: seq<T>, q: seq<T>)
    requires WeakOrder(less) && TotalOrder(less) && InOrder(less, p) && InOrder(less, q)
    requires multiset(p) == multiset(q)
    ensures p == q
    decreases |p|
  {
    assert |p| == |multiset(p)| == |multiset(q)| == |q|;
    if p != [] {
      SameLast(less, p, q);
      WithoutLast(p);
      WithoutLast(q);
      var p', q' := p[..|p| - 1], q[..|q| - 1];
      assert InOrder(less, p') && InOrder(less, q');
      hide InOrder, WeakOrder, TotalOrder;
      OrderIsUnique(less, p', q');
    }
  }

  // ----- stability -----

  lemma InsertStep<T>(less: (T, T) -> bool, s: seq<T>, last: T, x: T)
    ensures Insert(less, s + [last], x) ==
            if less(x, last) then Insert(less, s, x) + [last] else s + [last, x]
  {
    assert (s + [last])[..|s|] == s;
  }

  lemma SortStep<T>(less: (T, T) -> bool, s: seq<T>, x: T)
    ensures Sort(less, s + [x]) == Insert(less, Sort(less, s), x)
  {
    assert (s + [x])[..|s|] == s;
  }

  lemma InsertIntoPair<T(!new)>(less: (T, T) -> bool, l: seq<T>, x: T, y: T, z: T)
    requires WeakOrder(less) && !less(x, y) && !less(y, x)
    ensures less(z, x) <==> less(z, y)
    ensures Insert(less, l + [x, y], z) ==
            if less(z, x) then Insert(less, l, z) + [x, y] else l + [x, y, z]
  {
    hide Insert;
    assert l + [x, y] == (l + [x]) + [y];
    InsertStep(less, l + [x], y, z);
    InsertStep(less, l, x, z);
  }

  /** `x` and `y` stay side by side, in the order in which they came. */
  lemma {:induction false} InsertKeepsPair<T(!new)>(less: (T, T) -> bool, l: seq<T>, x: T, y: T, r: seq<T>, z: T)
      returns (l': seq<T>, r': seq<T>)
    requires WeakOrder(less) && !less(x, y) && !less(y, x)
    ensures Insert(less, l + [x, y] + r, z) == l' + [x, y] + r'
    ensures Insert(less, l + [y, x] + r, z) == l' + [y, x] + r'
    decreases |r|
  {
    if r == [] {
      assert l + [x, y] + r == l + [x, y] && l + [y, x] + r == l + [y, x];
      InsertIntoPair(less, l, x, y, z);
      InsertIntoPair(less, l, y, x, z);
      l', r' := if less(z, x) then Insert(less, l, z) else l, if less(z, x) then [] else [z];
      hide *;
    } else {
      var pre, last := r[..|r| - 1], r[|r| - 1];
      l', r' := InsertKeepsPair(less, l, x, y, pre, z);
      hide *;
      Regroup(l + [x, y], pre, last, z);
      Regroup(l + [y, x], pre, last, z);
      InsertStep(less, l + [x, y] + pre, last, z);
      InsertStep(less, l + [y, x] + pre, last, z);
      WithoutLast(r);
      Regroup(l' + [x, y], r', last, z);
      Regroup(l' + [y, x], r', last, z);
      if less(z, last) {
        r' := r' + [last];
      } else {
        l', r' := l, r + [z];
      }
    }
  }

  lemma Regroup<T>(a: seq<T>, b: seq<T>, last: T, z: T)
    ensures a + (b + [last]) == a + b + [last]
    ensures a + (b + [last] + [z]) == a + b + [last, z]
  {
  }

  lemma {:induction false} SortKeepsPair<T(!new)>(less: (T, T) -> bool, x: T, y: T, rest: seq<T>)
      returns (l: seq<T>, r: seq<T>)
    requires WeakOrder(less) && !less(x, y) && !less(y, x)
    ensures Sort(less, [x, y] + rest) == l + [x, y] + r
    ensures Sort(less, [y, x] + rest) == l + [y, x] + r
    decreases |rest|
  {
    if rest == [] {
      l, r := [], [];
      SortPair(less, x, y);
      SortPair(less, y, x);
      hide *;
      assert [x, y] + rest == [x, y] && [y, x] + rest == [y, x];
    } else {
      var pre, z := rest[..|rest| - 1], rest[|rest| - 1];
      assert [x, y] + rest == ([x, y] + pre) + [z] && [y, x] + rest == ([y, x] + pre) + [z];
      hide Insert, Sort, WeakOrder;
      l, r := SortKeepsPair(less, x, y, pre);
      SortStep(less, [x, y] + pre, z);
      SortStep(less, [y, x] + pre, z);
      l, r := InsertKeepsPair(less, l, x, y, r, z);
    }
  }

  lemma SortPair<T>(less: (T, T) -> bool, x: T, y: T)
    requires !less(y, x)
    ensures Sort(less, [x, y]) == [x, y]
  {
    assert [x, y][..1] == [x] && [x][..0] == [];
    assert Sort(less, [x]) == [x];
  }
}
