/**
 That scores are scalar products, and what it means for a search: with rows and query of length one, no
 document scores above one whose vector is the query itself.
 */
module ScalarProduct {
  import opened Prelude
  import opened IndexStore
  import opened Embedding
  import opened MatrixSearch

  function Times(v: Vector, c: real): Vector {
    seq(|v|, i requires 0 <= i < |v| => v[i] * c)
  }

  lemma TimesFront(v: Vector, c: real, n: nat)
    requires n <= |v|
    ensures Times(v, c)[..n] == Times(v[..n], c)
  {
    forall i | 0 <= i < n ensures Times(v, c)[..n][i] == Times(v[..n], c)[i] {
      assert v[..n][i] == v[i];
    }
  }

  lemma {:induction false} DotSymmetric(a: Vector, b: Vector)
    requires |a| == |b|
    ensures Dot(a, b) == Dot(b, a)
  {
    if a != [] {
      DotSymmetric(a[..|a| - 1], b[..|b| - 1]);
    }
  }

  lemma {:induction false} DotAdditive(a: Vector, b: Vector, c: Vector)
    requires |a| == |b| == |c|
    ensures Dot(a, Added(b, c)) == Dot(a, b) + Dot(a, c)
  {
    if a != [] {
      var n := |a| - 1;
      DotAdditive(a[..n], b[..n], c[..n]);
      assert Added(b, c)[..n] == Added(b[..n], c[..n]);
      Distributes(b[n], c[n], a[n]);
      assert a[n] * (b[n] + c[n]) == a[n] * b[n] + a[n] * c[n];
    }
  }

  lemma {:induction false} DotHomogeneous(a: Vector, b: Vector, c: real)
    requires |a| == |b|
    ensures Dot(a, Times(b, c)) == Dot(a, b) * c
  {
    if a != [] {
      var n := |a| - 1;
      DotHomogeneous(a[..n], b[..n], c);
      TimesFront(b, c, n);
      Associates(a[n], b[n], c);
      Distributes(Dot(a[..n], b[..n]), a[n] * b[n], c);
    }
  }

  lemma Associates(x: real, y: real, z: real)
    ensures x * (y * z) == (x * y) * z
  {
  }

  lemma {:induction false} DotSquares(v: Vector)
    ensures Dot(v, v) == SumOfSquares(v)
  {
    if v != [] {
      DotSquares(v[..|v| - 1]);
    }
  }

  // ----- the nearest vector is the query itself -----

  function Minus(a: Vector, b: Vector): Vector
    requires |a| == |b|
  {
    Added(a, Times(b, -1.0))
  }

  /** The square of the distance of two vectors. */
  lemma Distance(a: Vector, b: Vector)
    requires |a| == |b|
    ensures SumOfSquares(Minus(a, b)) == SumOfSquares(a) - 2.0 * Dot(a, b) + SumOfSquares(b)
  {
    var d, back := Minus(a, b), Times(b, -1.0);
    DotSquares(d);
    DotAdditive(d, a, back);
    DotSymmetric(d, a);
    DotAdditive(a, a, back);
    DotHomogeneous(a, b, -1.0);
    DotHomogeneous(d, b, -1.0);
    DotSymmetric(d, b);
    DotAdditive(b, a, back);
    DotHomogeneous(b, b, -1.0);
    DotSymmetric(a, b);
    DotSquares(a);
    DotSquares(b);
  }

  /** Vectors of length one score at most one, and exactly one only if they are the same. */
  lemma UnitsScoreOneIffEqual(a: Vector, b: Vector)
    requires |a| == |b| && SumOfSquares(a) == SumOfSquares(b) == 1.0
    ensures Dot(a, b) <= 1.0 && (Dot(a, b) == 1.0 <==> a == b)
  {
    var d := Minus(a, b);
    Distance(a, b);
    SquaresAreNotNegative(d);
    NoSquaresNoComponents(d);
    if a == b {
      DotSquares(a);
    }
    if Dot(a, b) == 1.0 {
      forall k | 0 <= k < |a| ensures a[k] == b[k] {
        assert d[k] == 0.0 && d[k] == a[k] + b[k] * -1.0;
      }
    }
  }

  ghost predicate UnitRows(rows: Matrix) {
    forall i :: 0 <= i < |rows| ==> SumOfSquares(rows[i]) == 1.0
  }

  /** The hit belongs to a document, and reports the scalar product of its vector with the query. */
  ghost predicate HitOf(ids: seq<string>, rows: Matrix, query: Vector, h: Hit, i: nat) {
    i < |ids| && i < |rows| && |rows[i]| == |query| && h.id == ids[i] && h.score == Dot(rows[i], query)
  }

  lemma HitsAreOfDocuments(ids: seq<string>, rows: Matrix, query: Vector, limit: nat, partition: (seq<real>, nat) -> seq<nat>, h: Hit)
    requires |ids| == |rows| && Fits(rows, query) && Partitioner(partition)
    requires var fast := Search(ids, rows, query, limit, partition); fast.Some? && h in fast.value
    ensures exists i :: HitOf(ids, rows, query, h, i)
  {
    MatrixSearchRefinesPlainSearch(ids, rows, query, limit, partition);
    var fast, all := Search(ids, rows, query, limit, partition).value, HitsOf(ids, rows, query);
    assert h in multiset(fast) && h in multiset(all);
    var i :| 0 <= i < |all| && all[i] == h;
    assert HitOf(ids, rows, query, h, i);
  }

  /** The first hit scores as high as any document. */
  lemma FirstHitIsHighest(ids: seq<string>, rows: Matrix, query: Vector, limit: nat, partition: (seq<real>, nat) -> seq<nat>, i: nat)
    requires |ids| == |rows| && Fits(rows, query) && Partitioner(partition) && limit >= 1 && i < |ids|
    ensures var fast := Search(ids, rows, query, limit, partition); fast.Some? && |fast.value| >= 1 && Dot(rows[i], query) <= fast.value[0].score
  {
    MatrixSearchRefinesPlainSearch(ids, rows, query, limit, partition);
    var fast, all := Search(ids, rows, query, limit, partition).value, HitsOf(ids, rows, query);
    var sorted := Sort(all, Before);
    AllSorted(all);
    var k := PlaceOf(sorted, all[i], all);
    ScoresFall(sorted, 0, k);
    MappedScore(fast, 0);
    MappedScore(sorted[..Min(limit, |ids|)], 0);
  }

  /**
   Searching with the very vector of a document, all of length one: the first hit has score one and is a
   document with that vector, and no hit scores above it.
   */
  lemma TheQueryItselfComesFirst(ids: seq<string>, rows: Matrix, query: Vector, limit: nat, partition: (seq<real>, nat) -> seq<nat>, i: nat)
    requires |ids| == |rows| && Fits(rows, query) && Partitioner(partition) && limit >= 1
    requires UnitRows(rows) && i < |rows| && rows[i] == query
    ensures var fast := Search(ids, rows, query, limit, partition);
            && fast.Some? && |fast.value| >= 1 && fast.value[0].score == 1.0
            && (exists j: nat :: HitOf(ids, rows, query, fast.value[0], j) && rows[j] == query)
            && forall h <- fast.value :: h.score <= 1.0
  {
    FirstHitIsHighest(ids, rows, query, limit, partition, i);
    UnitsScoreOneIffEqual(rows[i], query);
    var fast := Search(ids, rows, query, limit, partition).value;
    forall h | h in fast ensures h.score <= 1.0 {
      HitsAreOfDocuments(ids, rows, query, limit, partition, h);
      var j: nat :| HitOf(ids, rows, query, h, j);
      UnitsScoreOneIffEqual(rows[j], query);
    }
    HitsAreOfDocuments(ids, rows, query, limit, partition, fast[0]);
    var j: nat :| HitOf(ids, rows, query, fast[0], j);
    UnitsScoreOneIffEqual(rows[j], query);
  }
}
