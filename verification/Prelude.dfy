/** Small shared vocabulary: optional values, joined sequences and a stable sort over any strict weak order. */
module Prelude {

  datatype Option<+T> = None | Some(value: T)

  /** The elements of xs without repetition, each at its first position. */
  function Distinct<T(==,!new)>(xs: seq<T>): (r: seq<T>)
    ensures forall x :: x in r <==> x in xs
    ensures Unique(r)
  {
    if xs == [] then []
    else
      var front := Distinct(xs[..|xs| - 1]);
      var last := xs[|xs| - 1];
      if last in front then front else front + [last]
  }

  ghost predicate Unique<T>(xs: seq<T>) {
    forall i, j :: 0 <= i < j < |xs| ==> xs[i] != xs[j]
  }

  function Joined<T>(parts: seq<seq<T>>): seq<T> {
    if parts == [] then [] else Joined(parts[..|parts| - 1]) + parts[|parts| - 1]
  }

  lemma JoinedOneMore<T>(parts: seq<seq<T>>, part: seq<T>)
    ensures Joined(parts + [part]) == Joined(parts) + part
  {
    assert (parts + [part])[..|parts|] == parts;
  }

  lemma {:induction false} JoinedSum<T>(a: seq<seq<T>>, b: seq<seq<T>>)
    ensures Joined(a + b) == Joined(a) + Joined(b)
  {
    if b == [] {
      assert a + b == a;
    } else {
      var front, last := b[..|b| - 1], b[|b| - 1];
      JoinedSum(a, front);
      JoinedOneMore(a + front, last);
      JoinedOneMore(front, last);
      assert a + b == a + front + [last] && b == front + [last];
    }
  }

  lemma JoinedOne<T>(part: seq<T>)
    ensures Joined([part]) == part
  {
    assert [part][..0] == [];
  }

  ghost predicate Injective<S(!new), T>(f: S -> T) {
    forall a, b :: f(a) == f(b) ==> a == b
  }

  function Min(a: nat, b: nat): (r: nat)
    ensures r <= a && r <= b
  {
    if a < b then a else b
  }

  function Iterated<T>(f: T -> T, x: T, n: nat): T {
    if n == 0 then x else f(Iterated(f, x, n - 1))
  }

  lemma {:induction false} IteratedTwice<T>(f: T -> T, x: T, m: nat, n: nat)
    ensures Iterated(f, Iterated(f, x, m), n) == Iterated(f, x, m + n)
  {
    if n != 0 {
      IteratedTwice(f, x, m, n - 1);
    }
  }

  // ----- sorting -----

  ghost predicate StrictWeakOrder<T(!new)>(less: (T, T) -> bool) {
    && (forall x, y :: less(x, y) ==> !less(y, x))
    && (forall x, y, z :: less(x, z) ==> less(x, y) || less(y, z))
  }

  ghost predicate Sorted<T(!new)>(xs: seq<T>, less: (T, T) -> bool) {
    forall i, j :: 0 <= i < j < |xs| ==> !less(xs[j], xs[i])
  }

  /** Puts x behind every element it is not less than. */
  function Insert<T>(xs: seq<T>, x: T, less: (T, T) -> bool): (r: seq<T>)
    ensures multiset(r) == multiset(xs) + multiset{x}
  {
    if xs == [] then [x]
    else
      var front, last := xs[..|xs| - 1], xs[|xs| - 1];
      assert xs == front + [last];
      if less(x, last) then Insert(front, x, less) + [last] else xs + [x]
  }

  function Sort<T>(xs: seq<T>, less: (T, T) -> bool): (r: seq<T>)
    ensures multiset(r) == multiset(xs) && |r| == |xs|
  {
    if xs == [] then []
    else
      assert xs == xs[..|xs| - 1] + [xs[|xs| - 1]];
      var r := Insert(Sort(xs[..|xs| - 1], less), xs[|xs| - 1], less);
      SameSize(r, xs);
      r
  }

  lemma SameSize<T>(a: seq<T>, b: seq<T>)
    requires multiset(a) == multiset(b)
    ensures |a| == |b|
  {
    assert |multiset(a)| == |a| && |multiset(b)| == |b|;
  }

  lemma {:induction false} InsertKeepsSorted<T(!new)>(xs: seq<T>, x: T, less: (T, T) -> bool)
    requires StrictWeakOrder(less) && Sorted(xs, less)
    ensures Sorted(Insert(xs, x, less), less)
  {
    if xs != [] && less(x, xs[|xs| - 1]) {
      var front, last := xs[..|xs| - 1], xs[|xs| - 1];
      InsertKeepsSorted(front, x, less);
      var r := Insert(front, x, less);
      forall i | 0 <= i < |r| ensures !less(last, r[i]) {
        assert r[i] in multiset(front) + multiset{x};
      }
    } else if xs != [] {
      var last := xs[|xs| - 1];
      forall i | 0 <= i < |xs| ensures !less(x, xs[i]) {
        assert i < |xs| - 1 ==> !less(last, xs[i]);
      }
    }
  }

  lemma {:induction false} SortSorts<T(!new)>(xs: seq<T>, less: (T, T) -> bool)
    requires StrictWeakOrder(less)
    ensures Sorted(Sort(xs, less), less)
  {
    if xs != [] {
      SortSorts(xs[..|xs| - 1], less);
      InsertKeepsSorted(Sort(xs[..|xs| - 1], less), xs[|xs| - 1], less);
    }
  }

  lemma SortedMembers<T>(xs: seq<T>, less: (T, T) -> bool)
    ensures forall x :: x in Sort(xs, less) <==> x in xs
  {
    forall x ensures x in Sort(xs, less) <==> x in xs {
      assert x in multiset(xs) <==> x in xs;
      assert x in multiset(Sort(xs, less)) <==> x in Sort(xs, less);
    }
  }

  lemma WithoutPlace<T>(xs: seq<T>, i: nat)
    requires i < |xs|
    ensures multiset(xs[..i] + xs[i + 1..]) == multiset(xs) - multiset{xs[i]}
  {
    assert xs == xs[..i] + [xs[i]] + xs[i + 1..];
  }

  lemma Front<T>(xs: seq<T>)
    requires xs != []
    ensures multiset(xs[..|xs| - 1]) == multiset(xs) - multiset{xs[|xs| - 1]}
  {
    assert xs == xs[..|xs| - 1] + [xs[|xs| - 1]];
  }

  /** The order tells different elements of the list apart. */
  ghost predicate Tells<T(!new)>(xs: seq<T>, less: (T, T) -> bool) {
    forall i, j :: 0 <= i < j < |xs| ==> xs[i] == xs[j] || less(xs[i], xs[j]) || less(xs[j], xs[i])
  }

  lemma LastsAgree<T(!new)>(a: seq<T>, b: seq<T>, less: (T, T) -> bool)
    requires Sorted(a, less) && Sorted(b, less) && multiset(a) == multiset(b) && a != [] && b != [] && Tells(a, less)
    ensures a[|a| - 1] == b[|b| - 1]
  {
    var i := PlaceOf(a, b[|b| - 1], b);
    var j := PlaceOf(b, a[|a| - 1], a);
  }

  lemma FrontStaysSorted<T(!new)>(xs: seq<T>, less: (T, T) -> bool)
    requires xs != [] && Sorted(xs, less) && Tells(xs, less)
    ensures Sorted(xs[..|xs| - 1], less) && Tells(xs[..|xs| - 1], less)
  {
  }

  lemma FrontsAgree<T>(a: seq<T>, b: seq<T>)
    requires multiset(a) == multiset(b) && a != [] && b != [] && a[|a| - 1] == b[|b| - 1]
    ensures multiset(a[..|a| - 1]) == multiset(b[..|b| - 1])
    ensures a[..|a| - 1] == b[..|b| - 1] ==> a == b
  {
    Front(a);
    Front(b);
    assert a == a[..|a| - 1] + [a[|a| - 1]] && b == b[..|b| - 1] + [b[|b| - 1]];
  }

  /** Under an order that tells the elements apart there is only one way to sort them. */
  lemma {:induction false} SortedPermutationsAgree<T(!new)>(a: seq<T>, b: seq<T>, less: (T, T) -> bool)
    requires Sorted(a, less) && Sorted(b, less) && multiset(a) == multiset(b) && Tells(a, less)
    ensures a == b
  {
    SameSize(a, b);
    if a != [] {
      LastsAgree(a, b, less);
      FrontsAgree(a, b);
      FrontStaysSorted(a, less);
      var front := b[..|b| - 1];
      assert Sorted(front, less);
      SortedPermutationsAgree(a[..|a| - 1], front, less);
    }
  }

  lemma SortedSum<T(!new)>(a: seq<T>, b: seq<T>, less: (T, T) -> bool)
    requires Sorted(a, less) && Sorted(b, less) && forall i, j :: 0 <= i < |a| && 0 <= j < |b| ==> !less(b[j], a[i])
    ensures Sorted(a + b, less)
  {
  }

  function Mapped<S, T>(f: S -> T, xs: seq<S>): (r: seq<T>)
    ensures |r| == |xs|
  {
    seq(|xs|, i requires 0 <= i < |xs| => f(xs[i]))
  }

  lemma MappedSum<S, T>(f: S -> T, a: seq<S>, b: seq<S>)
    ensures Mapped(f, a + b) == Mapped(f, a) + Mapped(f, b)
  {
  }

  lemma MappedWithoutPlace<S, T>(f: S -> T, xs: seq<S>, i: nat)
    requires i < |xs|
    ensures multiset(Mapped(f, xs[..i] + xs[i + 1..])) == multiset(Mapped(f, xs)) - multiset{f(xs[i])}
    ensures f(xs[i]) in multiset(Mapped(f, xs))
  {
    assert Mapped(f, xs)[i] == f(xs[i]);
    WithoutPlace(Mapped(f, xs), i);
    assert Mapped(f, xs[..i] + xs[i + 1..]) == Mapped(f, xs)[..i] + Mapped(f, xs)[i + 1..];
  }

  lemma WithoutPlaces<S>(a: seq<S>, b: seq<S>, i: nat, j: nat)
    requires multiset(a) == multiset(b) && i < |a| && j < |b| && a[i] == b[j]
    ensures multiset(a[..i] + a[i + 1..]) == multiset(b[..j] + b[j + 1..])
  {
    WithoutPlace(a, i);
    WithoutPlace(b, j);
  }

  lemma PlaceOf<S>(xs: seq<S>, x: S, ys: seq<S>) returns (i: nat)
    requires multiset(xs) == multiset(ys) && x in ys
    ensures i < |xs| && xs[i] == x
  {
    assert x in multiset(xs);
    i :| 0 <= i < |xs| && xs[i] == x;
  }

  lemma {:induction false} MappedPermutation<S, T>(f: S -> T, a: seq<S>, b: seq<S>)
    requires multiset(a) == multiset(b)
    ensures multiset(Mapped(f, a)) == multiset(Mapped(f, b))
  {
    SameSize(a, b);
    if a != [] {
      var i := PlaceOf(b, a[0], a);
      WithoutPlaces(a, b, 0, i);
      MappedPermutation(f, a[..0] + a[1..], b[..i] + b[i + 1..]);
      MappedWithoutPlace(f, a, 0);
      MappedWithoutPlace(f, b, i);
      Restore(multiset(Mapped(f, a)), multiset(Mapped(f, b)), f(a[0]));
    }
  }

  lemma Restore<T>(a: multiset<T>, b: multiset<T>, x: T)
    requires x in a && x in b && a - multiset{x} == b - multiset{x}
    ensures a == b
  {
    assert a == (a - multiset{x}) + multiset{x};
  }

  /** The order of things by the images they have. */
  function Through<S, T>(f: S -> T, less: (T, T) -> bool): (S, S) -> bool {
    (p, q) => less(f(p), f(q))
  }

  lemma SortedThrough<S(!new), T(!new)>(f: S -> T, xs: seq<S>, less: (T, T) -> bool)
    requires StrictWeakOrder(less)
    ensures Sorted(Mapped(f, Sort(xs, Through(f, less))), less)
    ensures multiset(Mapped(f, Sort(xs, Through(f, less)))) == multiset(Mapped(f, xs))
  {
    SortSorts(xs, Through(f, less));
    MappedPermutation(f, Sort(xs, Through(f, less)), xs);
    var sorted, images := Sort(xs, Through(f, less)), Mapped(f, Sort(xs, Through(f, less)));
    forall i, j | 0 <= i < j < |images| ensures !less(images[j], images[i]) {
      assert !Through(f, less)(sorted[j], sorted[i]);
    }
  }

  /** The order of strings by their first difference, as code points. */
  predicate StringLess(a: string, b: string) {
    if b == "" then false
    else if a == "" then true
    else if a[0] != b[0] then a[0] < b[0]
    else StringLess(a[1..], b[1..])
  }

  /** One string comes before another when, behind a common front, it ends or has the lesser character. */
  ghost predicate Precedes(a: string, b: string) {
    exists k :: 0 <= k <= |a| && k < |b| && a[..k] == b[..k] && (k == |a| || a[k] < b[k])
  }

  lemma {:induction false} StringLessIsLexicographic(a: string, b: string)
    ensures StringLess(a, b) <==> Precedes(a, b)
  {
    if a != "" && b != "" && a[0] == b[0] {
      StringLessIsLexicographic(a[1..], b[1..]);
      if Precedes(a[1..], b[1..]) {
        var k :| 0 <= k <= |a[1..]| && k < |b[1..]| && a[1..][..k] == b[1..][..k] && (k == |a[1..]| || a[1..][k] < b[1..][k]);
        assert a[..k + 1] == [a[0]] + a[1..][..k] && b[..k + 1] == [b[0]] + b[1..][..k];
      }
      if Precedes(a, b) {
        var k :| 0 <= k <= |a| && k < |b| && a[..k] == b[..k] && (k == |a| || a[k] < b[k]);
        assert k > 0;
        assert a[1..][..k - 1] == a[..k][1..] && b[1..][..k - 1] == b[..k][1..];
      }
    } else if b != "" {
      assert a == "" || a[0] < b[0] ==> a[..0] == b[..0];
    }
  }

  lemma {:induction false} StringLessIsTotal(a: string, b: string)
    ensures !(StringLess(a, b) && StringLess(b, a)) && (a == b || StringLess(a, b) || StringLess(b, a))
  {
    if a != "" && b != "" && a[0] == b[0] {
      StringLessIsTotal(a[1..], b[1..]);
      assert a == [a[0]] + a[1..] && b == [b[0]] + b[1..];
    }
  }

  lemma {:induction false} StringLessSplits(a: string, b: string, c: string)
    requires StringLess(a, c)
    ensures StringLess(a, b) || StringLess(b, c)
  {
    if a != "" && b != "" && c != "" && a[0] == b[0] == c[0] {
      StringLessSplits(a[1..], b[1..], c[1..]);
    }
  }

  lemma UniqueCounts<T>(xs: seq<T>, x: T)
    requires Unique(xs)
    ensures multiset(xs)[x] <= 1
  {
    if x in xs {
      var i :| 0 <= i < |xs| && xs[i] == x;
      WithoutPlace(xs, i);
      var rest := xs[..i] + xs[i + 1..];
      assert x !in rest;
      assert x !in multiset(rest);
    }
  }

  lemma UniquePermutation<T(!new)>(a: seq<T>, b: seq<T>)
    requires multiset(a) == multiset(b) && Unique(a)
    ensures Unique(b)
  {
    forall i, j | 0 <= i < j < |b| ensures b[i] != b[j] {
      UniqueCounts(a, b[i]);
      WithoutPlace(b, i);
      var rest := b[..i] + b[i + 1..];
      assert rest[j - 1] == b[j];
      assert b[j] in multiset(rest);
    }
  }

  lemma {:induction false} SameMembersSameMultiset<T>(a: seq<T>, b: seq<T>)
    requires Unique(a) && Unique(b) && forall x :: x in a <==> x in b
    ensures multiset(a) == multiset(b)
  {
    forall x ensures multiset(a)[x] == multiset(b)[x] {
      UniqueCounts(a, x);
      UniqueCounts(b, x);
      assert x in multiset(a) <==> x in a;
      assert x in multiset(b) <==> x in b;
    }
  }
}
