/** Sequences in strict order: such a sequence is determined by its members. And the size of a subset. */
module Orders {

  ghost predicate Ordered<T(!new)>(s: seq<T>, less: (T, T) -> bool) {
    forall i, j :: 0 <= i < j < |s| ==> At(s, i, j, less)
  }

  ghost predicate At<T(!new)>(s: seq<T>, i: nat, j: nat, less: (T, T) -> bool)
    requires i < j < |s|
  {
    less(s[i], s[j])
  }

  ghost predicate AllBefore<T(!new)>(s: seq<T>, x: T, less: (T, T) -> bool) {
    forall y :: y in s ==> less(y, x)
  }

  ghost predicate Transitive<T(!new)>(less: (T, T) -> bool) {
    forall x, y, z :: TransitiveAt(less, x, y, z)
  }

  ghost predicate TransitiveAt<T(!new)>(less: (T, T) -> bool, x: T, y: T, z: T) {
    less(x, y) && less(y, z) ==> less(x, z)
  }

  ghost predicate Asymmetric<T(!new)>(less: (T, T) -> bool) {
    forall x, y :: AsymmetricAt(less, x, y)
  }

  ghost predicate AsymmetricAt<T(!new)>(less: (T, T) -> bool, x: T, y: T) {
    less(x, y) ==> !less(y, x)
  }

  lemma InitOrdered<T(!new)>(s: seq<T>, less: (T, T) -> bool)
    requires Ordered(s, less) && Asymmetric(less) && s != []
    ensures Ordered(s[..|s| - 1], less)
    ensures forall x :: x in s[..|s| - 1] <==> x in s && x != s[|s| - 1]
    ensures AllBefore(s[..|s| - 1], s[|s| - 1], less)
  {
    var init, last := s[..|s| - 1], s[|s| - 1];
    assert s == init + [last];
    assert AsymmetricAt(less, last, last);
    forall i, j | 0 <= i < j < |init| ensures At(init, i, j, less) {
      assert At(s, i, j, less);
    }
    forall x | x in init ensures less(x, last) {
      var i :| 0 <= i < |init| && init[i] == x;
      assert At(s, i, |s| - 1, less);
    }
  }

  lemma SnocOrdered<T(!new)>(s: seq<T>, x: T, less: (T, T) -> bool)
    requires Ordered(s, less) && AllBefore(s, x, less)
    ensures Ordered(s + [x], less)
  {
    forall i, j | 0 <= i < j < |s + [x]| ensures At(s + [x], i, j, less) {
      if j < |s| {
        assert At(s, i, j, less);
      }
    }
  }

  lemma EmptyTogether<T(!new)>(a: seq<T>, b: seq<T>)
    requires forall x :: x in a ==> x in b
    ensures a != [] ==> b != []
  {
    if a != [] {
      assert a[0] in b;
    }
  }

  lemma {:induction false} OrderedIsUnique<T(!new)>(a: seq<T>, b: seq<T>, less: (T, T) -> bool)
    requires Ordered(a, less) && Ordered(b, less) && Asymmetric(less)
    requires forall x :: x in a <==> x in b
    ensures a == b
    decreases |a|
  {
    if a == [] || b == [] {
      EmptyTogether(a, b);
      EmptyTogether(b, a);
    } else {
      InitOrdered(a, less);
      InitOrdered(b, less);
      var a', b', x, y := a[..|a| - 1], b[..|b| - 1], a[|a| - 1], b[|b| - 1];
      assert x in b && y in a;
      assert AsymmetricAt(less, x, y);
      assert x == y;
      forall z ensures z in a' <==> z in b' {
        assert z in a <==> z in b;
      }
      OrderedIsUnique(a', b', less);
      assert a == a' + [x] && b == b' + [y];
    }
  }

  // ---------- Sorting ----------

  /** Insertion after the elements it does not precede, as a stable sort does. */
  function Insert<T(!new)>(s: seq<T>, x: T, less: (T, T) -> bool): (r: seq<T>)
    ensures |r| == |s| + 1 && forall y :: y in r <==> y in s || y == x
  {
    if s == [] || !less(x, s[|s| - 1]) then s + [x]
    else
      assert s == s[..|s| - 1] + [s[|s| - 1]];
      Insert(s[..|s| - 1], x, less) + [s[|s| - 1]]
  }

  function Sort<T(!new)>(s: seq<T>, less: (T, T) -> bool): (r: seq<T>)
    ensures |r| == |s| && forall y :: y in r <==> y in s
  {
    if s == [] then []
    else
      assert s == s[..|s| - 1] + [s[|s| - 1]];
      Insert(Sort(s[..|s| - 1], less), s[|s| - 1], less)
  }

  ghost predicate Comparable<T(!new)>(s: seq<T>, x: T, less: (T, T) -> bool) {
    forall y :: y in s ==> less(x, y) || less(y, x)
  }

  ghost predicate AllComparable<T(!new)>(s: seq<T>, less: (T, T) -> bool) {
    forall i, j :: 0 <= i < j < |s| ==> ComparableAt(s, i, j, less)
  }

  ghost predicate ComparableAt<T(!new)>(s: seq<T>, i: nat, j: nat, less: (T, T) -> bool)
    requires i < j < |s|
  {
    less(s[i], s[j]) || less(s[j], s[i])
  }

  lemma {:induction false} InsertOrders<T(!new)>(s: seq<T>, x: T, less: (T, T) -> bool)
    requires Ordered(s, less) && Comparable(s, x, less) && Asymmetric(less) && Transitive(less)
    ensures Ordered(Insert(s, x, less), less)
  {
    if s == [] {
    } else {
      InitOrdered(s, less);
      var init, last := s[..|s| - 1], s[|s| - 1];
      if less(x, last) {
        InsertOrders(init, x, less);
        SnocOrdered(Insert(init, x, less), last, less);
      } else {
        assert less(last, x);
        forall y | y in s ensures less(y, x) {
          assert y in init ==> less(y, last);
          assert TransitiveAt(less, y, last, x);
        }
        SnocOrdered(s, x, less);
      }
    }
  }

  /** Sorting orders any sequence whose elements are pairwise comparable, and loses none of them. */
  lemma {:induction false} SortOrders<T(!new)>(s: seq<T>, less: (T, T) -> bool)
    requires AllComparable(s, less) && Asymmetric(less) && Transitive(less)
    ensures Ordered(Sort(s, less), less)
  {
    if s != [] {
      var n := |s| - 1;
      PrefixComparable(s, n, less);
      SortOrders(s[..n], less);
      SortComparable(s[..n], s[n], less);
      InsertOrders(Sort(s[..n], less), s[n], less);
    }
  }

  lemma SortComparable<T(!new)>(s: seq<T>, x: T, less: (T, T) -> bool)
    requires Comparable(s, x, less)
    ensures Comparable(Sort(s, less), x, less)
  {
  }

  lemma PrefixComparable<T(!new)>(s: seq<T>, n: nat, less: (T, T) -> bool)
    requires AllComparable(s, less) && n < |s|
    ensures AllComparable(s[..n], less) && Comparable(s[..n], s[n], less)
  {
    forall i, j | 0 <= i < j < n ensures ComparableAt(s[..n], i, j, less) {
      assert ComparableAt(s, i, j, less);
    }
    forall y | y in s[..n] ensures less(s[n], y) || less(y, s[n]) {
      var i :| 0 <= i < n && s[i] == y;
      assert ComparableAt(s, i, n, less);
    }
  }

  // ---------- Sets ----------

  lemma SubsetCard<T>(a: set<T>, b: set<T>)
    requires a <= b
    ensures |a| <= |b|
  {
    assert |b| == |a| + |b - a| by {
      assert a + (b - a) == b;
    }
  }
}
