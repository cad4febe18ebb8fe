/**
 Embedding a list of texts: cut into segments, look each segment up, send the rest upstream in
 bounded batches, keep what comes back, and merge the vectors of each text's segments.
 */
module Embedding {
  import opened Prelude
  import opened Segments

  type Vector = seq<real>
  type CacheKey = (string, string)

  /** One entry of an upstream reply; `embedding` [] stands for a missing, empty or malformed vector. */
  datatype Item = Item(index: int, embedding: Vector)

  /** An upstream reply; NoData is one that failed or has no list of entries. */
  datatype Reply = Data(items: seq<Item>) | NoData

  /** `embed` is the function the model computes; the adapter only ever sees it through replies. */
  datatype Setup = Setup(
    hash: string -> string, isSpace: char -> bool, sqrt: real -> real, embed: (string, string) -> Vector,
    segmentTokens: int, batchItems: nat, batchTokens: nat)

  // ----- vectors -----

  function SumOfSquares(v: Vector): real {
    if v == [] then 0.0 else SumOfSquares(v[..|v| - 1]) + v[|v| - 1] * v[|v| - 1]
  }

  function Normalized(sqrt: real -> real, v: Vector): (r: Vector)
    ensures |r| == |v|
  {
    var norm := sqrt(SumOfSquares(v));
    if norm <= 0.0 then Zeros(|v|) else Scaled(v, norm)
  }

  ghost predicate RootAt(sqrt: real -> real, x: real) {
    if x > 0.0 then sqrt(x) > 0.0 && sqrt(x) * sqrt(x) == x else x == 0.0 ==> sqrt(x) == 0.0
  }

  ghost predicate SquareRoot(sqrt: real -> real) {
    forall x :: RootAt(sqrt, x)
  }

  lemma {:induction false} SquaresAreNotNegative(v: Vector)
    ensures SumOfSquares(v) >= 0.0
  {
    if v != [] {
      SquaresAreNotNegative(v[..|v| - 1]);
    }
  }

  function Scaled(v: Vector, norm: real): Vector
    requires norm != 0.0
  {
    seq(|v|, i requires 0 <= i < |v| => v[i] / norm)
  }

  lemma SquareOfProduct(q: real, norm: real, x: real, square: real)
    requires q * norm == x && norm * norm == square
    ensures (q * q) * square == x * x
  {
    assert (q * q) * (norm * norm) == (q * norm) * (q * norm);
  }

  lemma Distributes(a: real, b: real, c: real)
    ensures (a + b) * c == a * c + b * c
  {
  }

  lemma {:induction false} SquaresOfScaled(v: Vector, norm: real, square: real)
    requires norm != 0.0 && norm * norm == square
    ensures SumOfSquares(Scaled(v, norm)) * square == SumOfSquares(v)
  {
    if v != [] {
      var n := |v| - 1;
      var scaled := Scaled(v, norm);
      SquaresOfScaled(v[..n], norm, square);
      assert scaled[..n] == Scaled(v[..n], norm);
      SquareOfProduct(scaled[n], norm, v[n], square);
      Distributes(SumOfSquares(scaled[..n]), scaled[n] * scaled[n], square);
    }
  }

  lemma Cancels(x: real, y: real)
    requires y > 0.0 && x * y == y
    ensures x == 1.0
  {
    Distributes(x, -1.0, y);
  }

  lemma UnitWhenScaled(v: Vector, norm: real, square: real)
    requires norm > 0.0 && norm * norm == square && SumOfSquares(v) == square > 0.0
    ensures SumOfSquares(Scaled(v, norm)) == 1.0
  {
    SquaresOfScaled(v, norm, square);
    Cancels(SumOfSquares(Scaled(v, norm)), square);
  }

  lemma NormalizedAt(sqrt: real -> real, v: Vector, square: real)
    requires square == SumOfSquares(v) && square >= 0.0 && RootAt(sqrt, square)
    ensures square > 0.0 ==> SumOfSquares(Normalized(sqrt, v)) == 1.0
    ensures square == 0.0 ==> Normalized(sqrt, v) == Zeros(|v|)
  {
    if square > 0.0 {
      UnitWhenScaled(v, sqrt(square), square);
    }
  }

  /** What the adapter keeps is of length one, or all zeros. */
  lemma NormalizedIsUnit(sqrt: real -> real, v: Vector)
    requires SquareRoot(sqrt)
    ensures SumOfSquares(v) > 0.0 ==> SumOfSquares(Normalized(sqrt, v)) == 1.0
    ensures SumOfSquares(v) == 0.0 ==> Normalized(sqrt, v) == Zeros(|v|)
  {
    SquaresAreNotNegative(v);
    assert RootAt(sqrt, SumOfSquares(v));
    NormalizedAt(sqrt, v, SumOfSquares(v));
  }

  ghost predicate SameDirection(v: Vector, w: Vector, norm: real) {
    |v| == |w| && norm > 0.0 && forall k :: 0 <= k < |v| ==> w[k] * norm == v[k]
  }

  /** And it points where the vector did: a positive factor takes it back. */
  lemma NormalizedKeepsDirection(sqrt: real -> real, v: Vector)
    requires SquareRoot(sqrt) && SumOfSquares(v) > 0.0
    ensures exists norm :: norm * norm == SumOfSquares(v) && SameDirection(v, Normalized(sqrt, v), norm)
  {
    assert RootAt(sqrt, SumOfSquares(v));
    var norm := sqrt(SumOfSquares(v));
    forall k | 0 <= k < |v| ensures Normalized(sqrt, v)[k] * norm == v[k] {
      assert Normalized(sqrt, v)[k] == v[k] / norm;
    }
    assert norm * norm == SumOfSquares(v) && SameDirection(v, Normalized(sqrt, v), norm);
  }

  function Added(a: Vector, b: Vector): Vector
    requires |a| == |b|
  {
    seq(|a|, i requires 0 <= i < |a| => a[i] + b[i])
  }

  function Zeros(n: nat): (z: Vector)
    ensures |z| == n
  {
    seq(n, i => 0.0)
  }

  ghost predicate AllOf(vectors: seq<Vector>, n: nat) {
    forall i :: 0 <= i < |vectors| ==> |vectors[i]| == n
  }

  function SumOf(vectors: seq<Vector>, n: nat): (r: Vector)
    requires AllOf(vectors, n)
    ensures |r| == n
  {
    if vectors == [] then Zeros(n) else Added(SumOf(vectors[..|vectors| - 1], n), vectors[|vectors| - 1])
  }

  /** One vector stays as it is; several are added up and normalized; unequal dimensions raise. */
  ghost function Merged(sqrt: real -> real, vectors: seq<Vector>): Option<Vector> {
    if vectors == [] then None
    else if |vectors| == 1 then Some(vectors[0])
    else if AllOf(vectors, |vectors[0]|) then Some(Normalized(sqrt, SumOf(vectors, |vectors[0]|)))
    else None
  }

  // ----- what a merge computes -----

  /** The sum of one component over all vectors. */
  function ColumnSum(vectors: seq<Vector>, k: nat): real
    requires forall i :: 0 <= i < |vectors| ==> k < |vectors[i]|
  {
    if vectors == [] then 0.0 else vectors[0][k] + ColumnSum(vectors[1..], k)
  }

  lemma {:induction false} ColumnSumLast(vectors: seq<Vector>, k: nat)
    requires vectors != [] && forall i :: 0 <= i < |vectors| ==> k < |vectors[i]|
    ensures ColumnSum(vectors, k) == ColumnSum(vectors[..|vectors| - 1], k) + vectors[|vectors| - 1][k]
  {
    if |vectors| > 1 {
      ColumnSumLast(vectors[1..], k);
      assert vectors[1..][..|vectors| - 2] == vectors[..|vectors| - 1][1..];
    }
  }

  lemma {:induction false} SumOfAt(vectors: seq<Vector>, n: nat, k: nat)
    requires AllOf(vectors, n) && k < n
    ensures SumOf(vectors, n)[k] == ColumnSum(vectors, k)
  {
    if vectors != [] {
      SumOfAt(vectors[..|vectors| - 1], n, k);
      ColumnSumLast(vectors, k);
    }
  }

  lemma {:induction false} NoSquaresNoComponents(v: Vector)
    ensures SumOfSquares(v) == 0.0 <==> forall k :: 0 <= k < |v| ==> v[k] == 0.0
  {
    if v != [] {
      var n := |v| - 1;
      NoSquaresNoComponents(v[..n]);
      SquaresAreNotNegative(v[..n]);
      SquareIsZero(v[n]);
      assert forall k :: 0 <= k < n ==> v[..n][k] == v[k];
    }
  }

  lemma PositiveProduct(a: real, b: real, product: real)
    requires product == a * b && ((a > 0.0 && b > 0.0) || (a < 0.0 && b < 0.0))
    ensures product > 0.0
  {
  }

  lemma SquareIsZero(x: real)
    ensures x * x >= 0.0 && (x * x == 0.0 <==> x == 0.0)
  {
    if x != 0.0 {
      PositiveProduct(x, x, x * x);
    }
  }

  ghost predicate Cancelling(vectors: seq<Vector>, n: nat)
    requires AllOf(vectors, n)
  {
    forall k :: 0 <= k < n ==> ColumnSum(vectors, k) == 0.0
  }

  ghost predicate SumsOver(vectors: seq<Vector>, v: Vector, norm: real)
    requires AllOf(vectors, |v|)
  {
    norm > 0.0 && forall k :: 0 <= k < |v| ==> v[k] * norm == ColumnSum(vectors, k)
  }

  /** A merge: of length one and in the direction of the sum of the vectors, component by component, or all zeros when they cancel out. */
  ghost predicate MergeOf(vectors: seq<Vector>, v: Vector) {
    && AllOf(vectors, |v|)
    && if Cancelling(vectors, |v|) then v == Zeros(|v|) else SumOfSquares(v) == 1.0 && exists norm :: SumsOver(vectors, v, norm)
  }

  lemma MergedIsMerge(sqrt: real -> real, vectors: seq<Vector>)
    requires SquareRoot(sqrt) && |vectors| > 1 && AllOf(vectors, |vectors[0]|)
    ensures MergeOf(vectors, Merged(sqrt, vectors).value)
  {
    var n := |vectors[0]|;
    var sum := SumOf(vectors, n);
    var v := Normalized(sqrt, sum);
    forall k | 0 <= k < n ensures sum[k] == ColumnSum(vectors, k) {
      SumOfAt(vectors, n, k);
    }
    NoSquaresNoComponents(sum);
    SquaresAreNotNegative(sum);
    NormalizedIsUnit(sqrt, sum);
    if SumOfSquares(sum) > 0.0 {
      NormalizedKeepsDirection(sqrt, sum);
      var norm :| norm * norm == SumOfSquares(sum) && SameDirection(sum, v, norm);
      assert SumsOver(vectors, v, norm);
    }
  }

  lemma {:induction false} ColumnSumWithoutPlace(vectors: seq<Vector>, k: nat, i: nat)
    requires i < |vectors| && forall j :: 0 <= j < |vectors| ==> k < |vectors[j]|
    ensures ColumnSum(vectors, k) == vectors[i][k] + ColumnSum(vectors[..i] + vectors[i + 1..], k)
  {
    if i > 0 {
      ColumnSumWithoutPlace(vectors[1..], k, i - 1);
      assert (vectors[..i] + vectors[i + 1..])[1..] == vectors[1..][..i - 1] + vectors[1..][i..];
    } else {
      assert vectors[..0] + vectors[1..] == vectors[1..];
    }
  }

  lemma {:induction false} ColumnSumPermutes(a: seq<Vector>, b: seq<Vector>, k: nat)
    requires multiset(a) == multiset(b) && (forall i :: 0 <= i < |a| ==> k < |a[i]|) && (forall i :: 0 <= i < |b| ==> k < |b[i]|)
    ensures ColumnSum(a, k) == ColumnSum(b, k)
  {
    SameSize(a, b);
    if a != [] {
      var i := PlaceOf(b, a[0], a);
      WithoutPlaces(a, b, 0, i);
      assert a[..0] + a[1..] == a[1..];
      ColumnSumPermutes(a[1..], b[..i] + b[i + 1..], k);
      ColumnSumWithoutPlace(b, k, i);
    }
  }

  lemma AllOfPermutes(a: seq<Vector>, b: seq<Vector>, n: nat)
    requires multiset(a) == multiset(b) && AllOf(a, n)
    ensures AllOf(b, n)
  {
    forall j | 0 <= j < |b| ensures |b[j]| == n {
      var i := PlaceOf(a, b[j], b);
    }
  }

  /** The order in which vectors are merged does not matter. */
  lemma MergeIgnoresOrder(sqrt: real -> real, a: seq<Vector>, b: seq<Vector>)
    requires multiset(a) == multiset(b)
    ensures Merged(sqrt, a) == Merged(sqrt, b)
  {
    SameSize(a, b);
    if |a| == 1 {
      var i := PlaceOf(b, a[0], a);
    } else if |a| > 1 {
      var i := PlaceOf(b, a[0], a);
      if AllOf(a, |a[0]|) {
        AllOfPermutes(a, b, |a[0]|);
        SumPermutes(a, b, |a[0]|);
      } else if AllOf(b, |b[0]|) {
        AllOfPermutes(b, a, |b[0]|);
      }
    }
  }

  lemma SumPermutes(a: seq<Vector>, b: seq<Vector>, n: nat)
    requires multiset(a) == multiset(b) && AllOf(a, n) && AllOf(b, n)
    ensures SumOf(a, n) == SumOf(b, n)
  {
    forall k | 0 <= k < n ensures SumOf(a, n)[k] == SumOf(b, n)[k] {
      SumOfAt(a, n, k);
      SumOfAt(b, n, k);
      ColumnSumPermutes(a, b, k);
    }
  }

  lemma {:induction false} CopiesSum(vectors: seq<Vector>, u: Vector, k: nat)
    requires (forall i :: 0 <= i < |vectors| ==> vectors[i] == u) && k < |u|
    ensures ColumnSum(vectors, k) == (|vectors| as real) * u[k]
  {
    if vectors != [] {
      CopiesSum(vectors[1..], u, k);
      Distributes(1.0, (|vectors| - 1) as real, u[k]);
    }
  }

  lemma {:induction false} UnitsApart(v: Vector, u: Vector, a: real, b: real)
    requires |v| == |u| && a > 0.0 && b > 0.0 && forall k :: 0 <= k < |v| ==> v[k] * a == b * u[k]
    ensures SumOfSquares(v) * (a * a) == (b * b) * SumOfSquares(u)
  {
    if v != [] {
      var n := |v| - 1;
      UnitsApart(v[..n], u[..n], a, b);
      assert v[n] * a == b * u[n];
      assert (v[n] * a) * (v[n] * a) == (b * u[n]) * (b * u[n]);
      Regroup(v[n], a);
      Regroup(u[n], b);
      Distributes(SumOfSquares(v[..n]), v[n] * v[n], a * a);
      Distributes(SumOfSquares(u[..n]), u[n] * u[n], b * b);
    }
  }

  lemma Regroup(x: real, a: real)
    ensures (x * a) * (x * a) == (x * x) * (a * a)
  {
  }

  lemma SquaresTell(a: real, b: real)
    requires a > 0.0 && b > 0.0 && a * a == b * b
    ensures a == b
  {
    assert (a - b) * (a + b) == 0.0;
  }

  lemma CancelFactor(x: real, y: real, a: real)
    requires a > 0.0 && x * a == a * y
    ensures x == y
  {
    assert (x - y) * a == 0.0;
  }

  /** A unit vector whose components, times one factor, are those of another unit vector times a second factor is that vector. */
  lemma UnitsInOneDirection(v: Vector, u: Vector, a: real, b: real)
    requires |v| == |u| && a > 0.0 && b > 0.0 && SumOfSquares(v) == SumOfSquares(u) == 1.0
    requires forall k :: 0 <= k < |v| ==> v[k] * a == b * u[k]
    ensures v == u
  {
    UnitsApart(v, u, a, b);
    OneTimes(SumOfSquares(v), a * a, b * b, SumOfSquares(u));
    SquaresTell(a, b);
    CancelAll(v, u, a, b);
  }

  lemma OneTimes(one: real, p: real, q: real, one': real)
    requires one == 1.0 && one' == 1.0 && one * p == q * one'
    ensures p == q
  {
  }

  lemma CancelAll(v: Vector, u: Vector, a: real, b: real)
    requires |v| == |u| && a > 0.0 && a == b && forall k :: 0 <= k < |v| ==> v[k] * a == b * u[k]
    ensures v == u
  {
    forall k | 0 <= k < |u| ensures v[k] == u[k] {
      assert v[k] * a == b * u[k];
      CancelFactor(v[k], u[k], a);
    }
  }

  /** Several copies of one unit vector merge to that vector. */
  lemma CopiesMergeToIt(sqrt: real -> real, vectors: seq<Vector>, u: Vector)
    requires SquareRoot(sqrt) && vectors != [] && SumOfSquares(u) == 1.0 && forall i :: 0 <= i < |vectors| ==> vectors[i] == u
    ensures Merged(sqrt, vectors) == Some(u)
  {
    if |vectors| > 1 {
      MergedIsMerge(sqrt, vectors);
      CopiesMerge(vectors, u, Merged(sqrt, vectors).value);
    }
  }

  lemma CopiesMerge(vectors: seq<Vector>, u: Vector, v: Vector)
    requires vectors != [] && SumOfSquares(u) == 1.0 && (forall i :: 0 <= i < |vectors| ==> vectors[i] == u) && MergeOf(vectors, v)
    ensures v == u
  {
    var n := |vectors| as real;
    assert |v| == |u|;
    forall k | 0 <= k < |u| ensures ColumnSum(vectors, k) == n * u[k] {
      CopiesSum(vectors, u, k);
    }
    CopiesDoNotCancel(vectors, u, n);
    var norm :| SumsOver(vectors, v, norm);
    UnitsInOneDirection(v, u, norm, n);
  }

  lemma CopiesDoNotCancel(vectors: seq<Vector>, u: Vector, n: real)
    requires AllOf(vectors, |u|) && n > 0.0 && SumOfSquares(u) == 1.0 && forall k :: 0 <= k < |u| ==> ColumnSum(vectors, k) == n * u[k]
    ensures !Cancelling(vectors, |u|)
  {
    NoSquaresNoComponents(u);
    var k :| 0 <= k < |u| && u[k] != 0.0;
    assert n * u[k] != 0.0;
  }

  method AddInto(merged: array<real>, vector: Vector)
    requires merged.Length == |vector|
    modifies merged
    ensures merged[..] == Added(old(merged[..]), vector)
  {
    for k := 0 to |vector|
      invariant merged[..k] == Added(old(merged[..]), vector)[..k]
      invariant merged[k..] == old(merged[k..])
    {
      assert merged[k] == merged[k..][0];
      merged[k] := merged[k] + vector[k];
    }
  }

  method MergeVectors(sqrt: real -> real, vectors: seq<Vector>) returns (r: Option<Vector>)
    ensures r == Merged(sqrt, vectors)
    ensures r.None? <==> vectors == [] || exists i :: 0 <= i < |vectors| && |vectors[i]| != |vectors[0]|
    ensures |vectors| == 1 ==> r == Some(vectors[0])
    ensures |vectors| > 1 && r.Some? && SquareRoot(sqrt) ==> MergeOf(vectors, r.value)
  {
    if vectors == [] {
      return None;
    }
    if |vectors| == 1 {
      return Some(vectors[0]);
    }
    var dimensions := |vectors[0]|;
    var merged := new real[dimensions](_ => 0.0);
    assert merged[..] == Zeros(dimensions);
    for i := 0 to |vectors|
      invariant AllOf(vectors[..i], dimensions) && merged[..] == SumOf(vectors[..i], dimensions)
    {
      if |vectors[i]| != dimensions {
        return None;
      }
      AddInto(merged, vectors[i]);
      assert vectors[..i + 1][..i] == vectors[..i];
    }
    assert vectors[..|vectors|] == vectors;
    if SquareRoot(sqrt) {
      MergedIsMerge(sqrt, vectors);
    }
    return Some(Normalized(sqrt, merged[..]));
  }

  // ----- upstream replies -----

  function InOrder(items: seq<Item>): seq<Item> {
    Sort(items, (a: Item, b: Item) => a.index < b.index)
  }

  /** How many inputs of a batch a reply has an entry for, going by their number alone. */
  function Answered(items: seq<Item>, n: nat): nat {
    Min(|items|, n)
  }

  /** Pairs entries in index order with the keys of the batch until the shorter runs out; a bad entry stops it. */
  function Absorb(sqrt: real -> real, cache: map<CacheKey, Vector>, keys: seq<CacheKey>, ordered: seq<Item>): (map<CacheKey, Vector>, bool)
    decreases |keys|
  {
    if keys == [] || ordered == [] then (cache, true)
    else if ordered[0].embedding == [] then (cache, false)
    else Absorb(sqrt, cache[keys[0] := Normalized(sqrt, ordered[0].embedding)], keys[1..], ordered[1..])
  }

  /** Every entry is what its own index says: the embedding of that input. */
  ghost predicate Truthful(embed: string -> Vector, input: seq<string>, items: seq<Item>) {
    forall i :: 0 <= i < |items| ==> 0 <= items[i].index < |input| && items[i].embedding == embed(input[items[i].index])
  }

  /** Sorted by index, entry i is about input i: the reply leaves no gap and repeats nothing. */
  ghost predicate Gapless(input: seq<string>, items: seq<Item>) {
    forall i :: 0 <= i < Answered(items, |input|) ==> InOrder(items)[i].index == i
  }

  /** What the adapter relies on: entry i, by order alone, is the embedding of input i, unless it is a bad one. */
  ghost predicate Positional(embed: string -> Vector, input: seq<string>, items: seq<Item>) {
    forall i :: 0 <= i < Answered(items, |input|) ==> InOrder(items)[i].embedding in {[], embed(input[i])}
  }

  lemma IndexOrder(items: seq<Item>)
    ensures forall i, j :: 0 <= i < j < |items| ==> InOrder(items)[i].index <= InOrder(items)[j].index
    ensures forall x :: x in InOrder(items) <==> x in items
  {
    SortSorts(items, (a: Item, b: Item) => a.index < b.index);
    SortedMembers(items, (a: Item, b: Item) => a.index < b.index);
  }

  predicate AboutInput(input: seq<string>, x: Item, i: nat) {
    i < |input| && 0 <= x.index < |input| && input[x.index] == input[i]
  }

  /** Sorted by index, entry i is about the text of input i, be it under another index of a repeated text. */
  ghost predicate Matched(input: seq<string>, items: seq<Item>) {
    forall i :: 0 <= i < Answered(items, |input|) ==> AboutInput(input, InOrder(items)[i], i)
  }

  /** A truthful reply may be used by order exactly when it is matched, whenever different texts embed differently. */
  lemma OrderIsEnoughIffMatched(embed: string -> Vector, input: seq<string>, items: seq<Item>)
    requires Truthful(embed, input, items) && forall t :: embed(t) != []
    requires forall i, j :: 0 <= i < j < |input| && input[i] != input[j] ==> embed(input[i]) != embed(input[j])
    ensures Positional(embed, input, items) <==> Matched(input, items)
  {
    IndexOrder(items);
    var ordered := InOrder(items);
    forall i | 0 <= i < Answered(items, |input|)
      ensures ordered[i].embedding in {[], embed(input[i])} <==> AboutInput(input, ordered[i], i)
    {
      assert ordered[i] in items;
      assert embed(input[ordered[i].index]) != [];
    }
  }

  /** In a batch without repeated texts that means: exactly when it is gapless. */
  lemma OrderIsEnoughIffGapless(embed: string -> Vector, input: seq<string>, items: seq<Item>)
    requires Truthful(embed, input, items) && forall t :: embed(t) != []
    requires forall i, j :: 0 <= i < j < |input| ==> embed(input[i]) != embed(input[j])
    ensures Positional(embed, input, items) <==> Gapless(input, items)
  {
    OrderIsEnoughIffMatched(embed, input, items);
    IndexOrder(items);
    forall i | 0 <= i < Answered(items, |input|)
      ensures AboutInput(input, InOrder(items)[i], i) <==> InOrder(items)[i].index == i
    {
      assert InOrder(items)[i] in items;
    }
  }

  lemma GaplessIsPositional(embed: string -> Vector, input: seq<string>, items: seq<Item>)
    requires Truthful(embed, input, items) && Gapless(input, items)
    ensures Positional(embed, input, items)
  {
    IndexOrder(items);
    forall i | 0 <= i < Answered(items, |input|) ensures InOrder(items)[i].embedding == embed(input[i]) {
      assert InOrder(items)[i] in items;
    }
  }

  ghost predicate Mentions(items: seq<Item>, k: int) {
    exists x :: x in items && x.index == k
  }

  /** A truthful reply with one entry per input is gapless, in whatever order the entries come. */
  lemma OneEntryPerInputIsGapless(embed: string -> Vector, input: seq<string>, items: seq<Item>)
    requires Truthful(embed, input, items) && |items| == |input|
    requires forall k :: 0 <= k < |input| ==> Mentions(items, k)
    ensures Gapless(input, items)
  {
    var ordered := InOrder(items);
    IndexOrder(items);
    var indices := seq(|ordered|, i requires 0 <= i < |ordered| => ordered[i].index);
    forall k | 0 <= k < |indices| ensures k in indices {
      assert Mentions(items, k);
      var x :| x in items && x.index == k;
      var i :| 0 <= i < |ordered| && ordered[i] == x;
      assert indices[i] == k;
    }
    forall i | 0 <= i < |indices| ensures 0 <= indices[i] < |indices| {
      assert ordered[i] in items;
    }
    forall i | 0 <= i < |ordered| ensures ordered[i].index == i {
      assert indices[i] == ordered[i].index;
      AtMost(indices, i);
      AtLeast(indices, i);
    }
  }

  ghost predicate SortedOnto(indices: seq<int>) {
    && (forall i, j :: 0 <= i < j < |indices| ==> indices[i] <= indices[j])
    && (forall k :: 0 <= k < |indices| ==> k in indices)
    && (forall i :: 0 <= i < |indices| ==> 0 <= indices[i] < |indices|)
  }

  lemma {:induction false} AtMost(indices: seq<int>, i: nat)
    requires SortedOnto(indices) && i < |indices|
    ensures indices[i] <= i
  {
    assert i in indices;
    if i > 0 {
      AtMost(indices, i - 1);
    }
  }

  lemma {:induction false} AtLeast(indices: seq<int>, i: nat)
    requires SortedOnto(indices) && i < |indices|
    ensures indices[i] >= i
    decreases |indices| - i
  {
    assert i in indices;
    if i + 1 < |indices| {
      AtLeast(indices, i + 1);
    }
  }

  lemma AbsorbStep(sqrt: real -> real, cache: map<CacheKey, Vector>, keys: seq<CacheKey>, ordered: seq<Item>, k: nat)
    requires k <= |keys| && k <= |ordered|
    ensures Absorb(sqrt, cache, keys[k..], ordered[k..])
            == if k == |keys| || k == |ordered| then (cache, true)
               else if ordered[k].embedding == [] then (cache, false)
               else Absorb(sqrt, cache[keys[k] := Normalized(sqrt, ordered[k].embedding)], keys[k + 1..], ordered[k + 1..])
  {
    if k < |keys| && k < |ordered| {
      assert keys[k..][1..] == keys[k + 1..] && ordered[k..][1..] == ordered[k + 1..];
    }
  }

  ghost predicate All(cache: map<CacheKey, Vector>, ok: (CacheKey, Vector) -> bool) {
    forall k <- cache.Keys :: ok(k, cache[k])
  }

  lemma {:induction false} AbsorbKeepsAll(sqrt: real -> real, cache: map<CacheKey, Vector>, keys: seq<CacheKey>, ordered: seq<Item>, ok: (CacheKey, Vector) -> bool)
    requires All(cache, ok)
    requires forall i :: 0 <= i < |keys| && i < |ordered| && ordered[i].embedding != [] ==> ok(keys[i], Normalized(sqrt, ordered[i].embedding))
    ensures All(Absorb(sqrt, cache, keys, ordered).0, ok)
    decreases |keys|
  {
    if keys == [] || ordered == [] || ordered[0].embedding == [] {
      assert Absorb(sqrt, cache, keys, ordered).0 == cache;
    } else {
      var cache1 := cache[keys[0] := Normalized(sqrt, ordered[0].embedding)];
      AbsorbKeepsAll(sqrt, cache1, keys[1..], ordered[1..], ok);
    }
  }

  /**
   Why the adapter needs gapless replies: asked for two texts and truthfully answered about the
   second only, it files the second one's vector under the first one's key.
   */
  lemma AGapPoisonsTheCache(sqrt: real -> real, a: CacheKey, b: CacheKey, ofA: Vector, ofB: Vector)
    requires a != b && ofA != [] && ofB != [] && Normalized(sqrt, ofA) != Normalized(sqrt, ofB)
    ensures var embed := (t: string) => if t == "a" then ofA else ofB;
            var items := [Item(1, ofB)];
            && Truthful(embed, ["a", "b"], items) && !Gapless(["a", "b"], items)
            && Absorb(sqrt, map[], [a, b], InOrder(items)) == (map[a := Normalized(sqrt, ofB)], true)
  {
    var items := [Item(1, ofB)];
    assert items[..0] == [];
    assert InOrder(items) == items;
    assert [a, b][1..] == [b] && items[1..] == [];
    assert Answered(items, 2) == 1;
    assert InOrder(items)[0].index == 1;
  }
}
