/**
 Searching an index by multiplying a matrix with the query, against the plain form that scores
 every document and sorts: the same scores in the same order, and the same documents unless the
 limit cuts through a tie.
 */
module MatrixSearch {
  import opened Prelude
  import opened IndexStore
  import V = VectorCaches

  datatype Hit = Hit(id: string, score: real)

  /** Higher scores first, equal scores by id. */
  predicate Before(a: Hit, b: Hit) {
    a.score > b.score || (a.score == b.score && StringLess(a.id, b.id))
  }

  function Dot(a: seq<real>, b: seq<real>): real
    requires |a| == |b|
  {
    if a == [] then 0.0 else Dot(a[..|a| - 1], b[..|b| - 1]) + a[|a| - 1] * b[|b| - 1]
  }

  predicate Fits(vectors: seq<seq<real>>, query: seq<real>) {
    forall i :: 0 <= i < |vectors| ==> |vectors[i]| == |query|
  }

  function HitsOf(ids: seq<string>, rows: Matrix, query: seq<real>): (hits: seq<Hit>)
    requires |ids| == |rows| && Fits(rows, query)
    ensures |hits| == |ids|
  {
    seq(|ids|, i requires 0 <= i < |ids| => Hit(ids[i], Dot(rows[i], query)))
  }

  /** The plain search: score every document, sort, cut.  Unequal dimensions raise. */
  function PlainSearch(ids: seq<string>, vectors: Matrix, query: seq<real>, limit: nat): Option<seq<Hit>>
    requires |ids| == |vectors|
  {
    if !Fits(vectors, query) then None
    else Some(Sort(HitsOf(ids, vectors, query), Before)[..Min(limit, |ids|)])
  }

  function Range(n: nat): seq<nat> {
    seq(n, i requires 0 <= i < n => i)
  }

  /** What `argpartition(scores, -c)` may return: all places, the c of the best scores standing last. */
  ghost predicate Partitions(scores: seq<real>, c: nat, order: seq<nat>) {
    && c <= |scores| && |order| == |scores| && multiset(order) == multiset(Range(|scores|))
    && forall i, j :: 0 <= i < |order| - c <= j < |order| && order[i] < |scores| && order[j] < |scores| ==> scores[order[i]] <= scores[order[j]]
  }

  /** `partition` stands for argpartition: any function that keeps its contract. */
  ghost predicate Partitioner(partition: (seq<real>, nat) -> seq<nat>) {
    forall scores: seq<real>, c: nat :: c <= |scores| ==> Partitions(scores, c, partition(scores, c))
  }

  /** The places to report; asking for more than there are rows raises. */
  function Selected(scores: seq<real>, ids: nat, limit: nat, partition: (seq<real>, nat) -> seq<nat>): Option<seq<nat>> {
    if limit >= ids then Some(Range(ids))
    else
      var order := partition(scores, limit);
      if limit > |scores| || limit > |order| then None else Some(order[|order| - limit..])
  }

  function ScoresOf(rows: Matrix, query: seq<real>): seq<real>
    requires Fits(rows, query)
  {
    seq(|rows|, i requires 0 <= i < |rows| => Dot(rows[i], query))
  }

  function HitAt(ids: seq<string>, scores: seq<real>): nat -> Hit {
    (p: nat) => if p < |ids| && p < |scores| then Hit(ids[p], scores[p]) else Hit("", 0.0)
  }

  /** The search over a matrix; `ids` may come from another place than the matrix and a place outside either raises. */
  function Search(ids: seq<string>, rows: Matrix, query: seq<real>, limit: nat, partition: (seq<real>, nat) -> seq<nat>): Option<seq<Hit>> {
    if !Fits(rows, query) then None
    else
      var scores := ScoresOf(rows, query);
      var selected := Selected(scores, |ids|, limit, partition);
      if selected.None? || exists p <- selected.value :: p >= |ids| || p >= |scores| then None
      else
        var hit := HitAt(ids, scores);
        Some(Mapped(hit, Sort(selected.value, Through(hit, Before))))
  }

  lemma BeforeIsTotal()
    ensures StrictWeakOrder(Before) && forall a, b :: a == b || Before(a, b) || Before(b, a)
  {
    forall a: Hit, b: Hit ensures !(Before(a, b) && Before(b, a)) && (a == b || Before(a, b) || Before(b, a)) {
      StringLessIsTotal(a.id, b.id);
    }
    forall a: Hit, b: Hit, c: Hit | Before(a, c) ensures Before(a, b) || Before(b, c) {
      if a.score == c.score {
        StringLessSplits(a.id, b.id, c.id);
      }
    }
  }

  lemma BeforeTells(hits: seq<Hit>)
    ensures Tells(hits, Before)
  {
    BeforeIsTotal();
  }

  function ScoreOf(h: Hit): real { h.score }

  predicate Higher(a: real, b: real) { a > b }

  /** Ranked hits followed by lesser ones, against all hits sorted. */
  ghost predicate Best(all: seq<Hit>, ranked: seq<Hit>, rest: seq<Hit>) {
    && multiset(ranked) + multiset(rest) == multiset(all)
    && Sorted(ranked, Before)
    && forall s, r :: s in ranked && r in rest ==> r.score <= s.score
  }

  lemma ScoresDescend(hits: seq<Hit>)
    requires Sorted(hits, Before)
    ensures Sorted(Mapped(ScoreOf, hits), Higher)
  {
    var scores := Mapped(ScoreOf, hits);
    forall i, j | 0 <= i < j < |scores| ensures !Higher(scores[j], scores[i]) {
      assert !Before(hits[j], hits[i]);
    }
  }

  lemma ScoresOfBest(all: seq<Hit>, ranked: seq<Hit>, rest: seq<Hit>)
    requires Best(all, ranked, rest)
    ensures |ranked| + |rest| == |all|
    ensures Mapped(ScoreOf, Sort(all, Before)) == Mapped(ScoreOf, ranked) + Mapped(ScoreOf, Sort(rest, Before))
  {
    BeforeIsTotal();
    SortSorts(all, Before);
    SortSorts(rest, Before);
    SortedMembers(rest, Before);
    var joined, sorted := ranked + Sort(rest, Before), Sort(all, Before);
    assert multiset(joined) == multiset(sorted);
    SameSize(joined, sorted);
    ScoresDescend(sorted);
    JoinedScoresDescend(ranked, Sort(rest, Before));
    MappedPermutation(ScoreOf, joined, sorted);
    MappedSum(ScoreOf, ranked, Sort(rest, Before));
    SortedPermutationsAgree(Mapped(ScoreOf, sorted), Mapped(ScoreOf, joined), Higher);
  }

  lemma JoinedScoresDescend(ranked: seq<Hit>, rest: seq<Hit>)
    requires Sorted(ranked, Before) && Sorted(rest, Before)
    requires forall s, r | s in ranked && r in rest :: r.score <= s.score
    ensures Sorted(Mapped(ScoreOf, ranked + rest), Higher)
  {
    ScoresDescend(ranked);
    ScoresDescend(rest);
    MappedSum(ScoreOf, ranked, rest);
    var high, low := Mapped(ScoreOf, ranked), Mapped(ScoreOf, rest);
    forall i, j | 0 <= i < |high| && 0 <= j < |low| ensures !Higher(low[j], high[i]) {
      assert ranked[i] in ranked && rest[j] in rest;
      assert high[i] == ScoreOf(ranked[i]) && low[j] == ScoreOf(rest[j]);
    }
    SortedSum(high, low, Higher);
  }

  ghost predicate TiedAt(all: seq<Hit>, c: nat) {
    0 < c < |all| && Sort(all, Before)[c - 1].score == Sort(all, Before)[c].score
  }

  lemma MappedScore(hits: seq<Hit>, i: nat)
    requires i < |hits|
    ensures Mapped(ScoreOf, hits)[i] == hits[i].score
  {
    assert Mapped(ScoreOf, hits)[i] == ScoreOf(hits[i]);
  }

  lemma ScoresAt(sorted: seq<Hit>, ranked: seq<Hit>, others: seq<Hit>, i: nat)
    requires Mapped(ScoreOf, sorted) == Mapped(ScoreOf, ranked) + Mapped(ScoreOf, others) && i < |sorted|
    ensures |sorted| == |ranked| + |others|
    ensures sorted[i].score == if i < |ranked| then ranked[i].score else others[i - |ranked|].score
  {
    MappedScore(sorted, i);
    if i < |ranked| {
      MappedScore(ranked, i);
    } else {
      MappedScore(others, i - |ranked|);
    }
  }

  lemma ScoresFall(hits: seq<Hit>, i: nat, j: nat)
    requires Sorted(hits, Before) && i <= j < |hits|
    ensures hits[i].score >= hits[j].score
  {
    assert i < j ==> !Before(hits[j], hits[i]);
  }

  lemma LowerBehindTheCut(sorted: seq<Hit>, ranked: seq<Hit>, others: seq<Hit>, i: nat, j: nat)
    requires Mapped(ScoreOf, sorted) == Mapped(ScoreOf, ranked) + Mapped(ScoreOf, others)
    requires Sorted(ranked, Before) && Sorted(others, Before) && i < |ranked| && j < |others|
    requires |ranked| < |sorted| && sorted[|ranked| - 1].score > sorted[|ranked|].score
    ensures ranked[i].score > others[j].score
  {
    ScoresAt(sorted, ranked, others, |ranked| - 1);
    ScoresAt(sorted, ranked, others, |ranked|);
    ScoresFall(ranked, i, |ranked| - 1);
    ScoresFall(others, 0, j);
  }

  lemma RestIsLower(all: seq<Hit>, ranked: seq<Hit>, rest: seq<Hit>, i: nat, j: nat)
    requires Best(all, ranked, rest) && |ranked| + |rest| == |all| && !TiedAt(all, |ranked|)
    requires i < |ranked| && j < |rest|
    ensures !Before(Sort(rest, Before)[j], ranked[i])
  {
    BeforeIsTotal();
    SortSorts(rest, Before);
    SortSorts(all, Before);
    ScoresOfBest(all, ranked, rest);
    ScoresFall(Sort(all, Before), |ranked| - 1, |ranked|);
    LowerBehindTheCut(Sort(all, Before), ranked, Sort(rest, Before), i, j);
  }

  lemma AllSorted(hits: seq<Hit>)
    ensures Sorted(Sort(hits, Before), Before)
  {
    BeforeIsTotal();
    SortSorts(hits, Before);
  }

  /** When the limit does not cut through a tie the best hits are determined. */
  lemma HitsOfBest(all: seq<Hit>, ranked: seq<Hit>, rest: seq<Hit>)
    requires Best(all, ranked, rest) && |ranked| + |rest| == |all| && !TiedAt(all, |ranked|)
    ensures ranked == Sort(all, Before)[..|ranked|]
  {
    AllSorted(all);
    AllSorted(rest);
    var others := Sort(rest, Before);
    forall i, j | 0 <= i < |ranked| && 0 <= j < |others| ensures !Before(others[j], ranked[i]) {
      RestIsLower(all, ranked, rest, i, j);
    }
    SortedSum(ranked, others, Before);
    assert multiset(ranked + others) == multiset(Sort(all, Before));
    BeforeTells(ranked + others);
    SortedPermutationsAgree(ranked + others, Sort(all, Before), Before);
  }

  lemma HitsInOrder(ids: seq<string>, rows: Matrix, query: seq<real>, order: seq<nat>)
    requires |ids| == |rows| && Fits(rows, query) && multiset(order) == multiset(Range(|ids|))
    ensures multiset(Mapped(HitAt(ids, ScoresOf(rows, query)), order)) == multiset(HitsOf(ids, rows, query))
  {
    var hit := HitAt(ids, ScoresOf(rows, query));
    MappedPermutation(hit, order, Range(|ids|));
    assert Mapped(hit, Range(|ids|)) == HitsOf(ids, rows, query);
  }

  lemma PlacesInside(order: seq<nat>, n: nat)
    requires multiset(order) == multiset(Range(n))
    ensures |order| == n && forall p <- order :: p < n
  {
    SameSize(order, Range(n));
    forall p | p in order ensures p < n {
      assert p in multiset(Range(n));
    }
  }

  /** The places not selected. */
  ghost function Unselected(scores: seq<real>, ids: nat, limit: nat, partition: (seq<real>, nat) -> seq<nat>): seq<nat> {
    if limit >= ids then [] else var order := partition(scores, limit); if limit > |order| then [] else order[..|order| - limit]
  }

  ghost predicate NoneAbove(scores: seq<real>, selected: seq<nat>, unselected: seq<nat>) {
    forall p, q | p in selected && q in unselected && p < |scores| && q < |scores| :: scores[q] <= scores[p]
  }

  lemma PartitionIsBest(scores: seq<real>, c: nat, order: seq<nat>)
    requires Partitions(scores, c, order)
    ensures NoneAbove(scores, order[|order| - c..], order[..|order| - c])
  {
    var selected, unselected := order[|order| - c..], order[..|order| - c];
    forall p, q | p in selected && q in unselected && p < |scores| && q < |scores| ensures scores[q] <= scores[p] {
      var j :| 0 <= j < |selected| && selected[j] == p;
      var i :| 0 <= i < |unselected| && unselected[i] == q;
      assert order[|order| - c + j] == p && order[i] == q;
    }
  }

  lemma SelectedIsBest(scores: seq<real>, limit: nat, partition: (seq<real>, nat) -> seq<nat>)
    requires Partitioner(partition)
    ensures var selected, unselected := Selected(scores, |scores|, limit, partition), Unselected(scores, |scores|, limit, partition);
            && selected.Some? && |selected.value| == Min(limit, |scores|)
            && multiset(unselected + selected.value) == multiset(Range(|scores|))
            && NoneAbove(scores, selected.value, unselected)
  {
    if limit >= |scores| {
      assert [] + Range(|scores|) == Range(|scores|);
    } else {
      var order := partition(scores, limit);
      assert Partitions(scores, limit, order);
      PartitionIsBest(scores, limit, order);
      assert order[..|order| - limit] + order[|order| - limit..] == order;
    }
  }

  lemma Preimage<S, T>(f: S -> T, xs: seq<S>, y: T) returns (x: S)
    requires y in Mapped(f, xs)
    ensures x in xs && f(x) == y
  {
    var i :| 0 <= i < |xs| && Mapped(f, xs)[i] == y;
    x := xs[i];
  }

  lemma RankedAbove(ids: seq<string>, scores: seq<real>, ranked: seq<nat>, unselected: seq<nat>)
    requires |ids| == |scores| && NoneAbove(scores, ranked, unselected)
    requires (forall p <- ranked :: p < |ids|) && (forall p <- unselected :: p < |ids|)
    ensures forall s, r | s in Mapped(HitAt(ids, scores), ranked) && r in Mapped(HitAt(ids, scores), unselected) :: r.score <= s.score
  {
    var hit := HitAt(ids, scores);
    forall s: Hit, r: Hit | s in Mapped(hit, ranked) && r in Mapped(hit, unselected) ensures r.score <= s.score {
      var p := Preimage(hit, ranked, s);
      var q := Preimage(hit, unselected, r);
    }
  }

  lemma RankedIsBest(ids: seq<string>, rows: Matrix, query: seq<real>, selected: seq<nat>, unselected: seq<nat>)
    requires |ids| == |rows| && Fits(rows, query) && multiset(unselected + selected) == multiset(Range(|ids|))
    requires NoneAbove(ScoresOf(rows, query), selected, unselected)
    ensures var hit := HitAt(ids, ScoresOf(rows, query));
            Best(HitsOf(ids, rows, query), Mapped(hit, Sort(selected, Through(hit, Before))), Mapped(hit, unselected))
  {
    var hit := HitAt(ids, ScoresOf(rows, query));
    BeforeIsTotal();
    SortedThrough(hit, selected, Before);
    HitsInOrder(ids, rows, query, unselected + selected);
    MappedSum(hit, unselected, selected);
    PlacesInside(unselected + selected, |ids|);
    SortedMembers(selected, Through(hit, Before));
    forall p | p in selected || p in unselected ensures p < |ids| {
      assert p in unselected + selected;
    }
    RankedAbove(ids, ScoresOf(rows, query), Sort(selected, Through(hit, Before)), unselected);
  }

  /** The first of the sorted hits, as far as scores tell; and the very first ones when no tie is cut. */
  ghost predicate FirstOf(all: seq<Hit>, c: nat, ranked: seq<Hit>) {
    && |ranked| == c <= |all|
    && Mapped(ScoreOf, ranked) == Mapped(ScoreOf, Sort(all, Before)[..c])
    && multiset(ranked) <= multiset(all)
    && (forall s, r | s in ranked && r in multiset(all) - multiset(ranked) :: r.score <= s.score)
    && (!TiedAt(all, c) ==> ranked == Sort(all, Before)[..c])
  }

  lemma BestIsFirst(all: seq<Hit>, ranked: seq<Hit>, rest: seq<Hit>)
    requires Best(all, ranked, rest)
    ensures FirstOf(all, |ranked|, ranked)
  {
    ScoresOfBest(all, ranked, rest);
    var sorted := Mapped(ScoreOf, Sort(all, Before));
    assert sorted[..|ranked|] == Mapped(ScoreOf, Sort(all, Before)[..|ranked|]);
    assert multiset(all) - multiset(ranked) == multiset(rest);
    if !TiedAt(all, |ranked|) {
      HitsOfBest(all, ranked, rest);
    }
  }

  lemma SearchIsFirst(ids: seq<string>, rows: Matrix, query: seq<real>, limit: nat, partition: (seq<real>, nat) -> seq<nat>)
    requires |ids| == |rows| && Partitioner(partition) && Fits(rows, query)
    ensures var fast := Search(ids, rows, query, limit, partition);
            fast.Some? && FirstOf(HitsOf(ids, rows, query), Min(limit, |ids|), fast.value)
  {
    var scores := ScoresOf(rows, query);
    SelectedIsBest(scores, limit, partition);
    var selected, unselected := Selected(scores, |ids|, limit, partition).value, Unselected(scores, |ids|, limit, partition);
    RankedIsBest(ids, rows, query, selected, unselected);
    PlacesInside(unselected + selected, |ids|);
    assert forall p <- selected :: p in unselected + selected;
    BestIsFirst(HitsOf(ids, rows, query), Search(ids, rows, query, limit, partition).value, Mapped(HitAt(ids, scores), unselected));
  }

  /** Higher scores come first and, of equal ones, the lesser id. */
  ghost predicate ByScoreThenId(hits: seq<Hit>) {
    forall i, j :: 0 <= i < j < |hits| ==>
      hits[i].score > hits[j].score || (hits[i].score == hits[j].score && (hits[i].id == hits[j].id || Precedes(hits[i].id, hits[j].id)))
  }

  lemma SortedIsByScoreThenId(hits: seq<Hit>)
    requires Sorted(hits, Before)
    ensures ByScoreThenId(hits)
  {
    forall i, j | 0 <= i < j < |hits|
      ensures hits[i].score > hits[j].score || (hits[i].score == hits[j].score && (hits[i].id == hits[j].id || Precedes(hits[i].id, hits[j].id)))
    {
      assert !Before(hits[j], hits[i]);
      StringLessIsTotal(hits[i].id, hits[j].id);
      StringLessIsLexicographic(hits[i].id, hits[j].id);
    }
  }

  /** Whatever a search answers is in that order, even over identifiers of another index. */
  lemma SearchIsInOrder(ids: seq<string>, rows: Matrix, query: seq<real>, limit: nat, partition: (seq<real>, nat) -> seq<nat>)
    ensures var fast := Search(ids, rows, query, limit, partition); fast.Some? ==> ByScoreThenId(fast.value)
  {
    if Fits(rows, query) {
      var scores := ScoresOf(rows, query);
      var selected, hit := Selected(scores, |ids|, limit, partition), HitAt(ids, scores);
      if selected.Some? {
        BeforeIsTotal();
        SortedThrough(hit, selected.value, Before);
        SortedIsByScoreThenId(Mapped(hit, Sort(selected.value, Through(hit, Before))));
      }
    }
  }

  /**
   Whatever places argpartition picks: the scores are those of the plain search, nothing left out
   scores higher than anything reported, and unless the limit cuts through a tie it is the plain search.
   */
  lemma MatrixSearchRefinesPlainSearch(ids: seq<string>, rows: Matrix, query: seq<real>, limit: nat, partition: (seq<real>, nat) -> seq<nat>)
    requires |ids| == |rows| && Partitioner(partition)
    ensures var plain, fast := PlainSearch(ids, rows, query, limit), Search(ids, rows, query, limit, partition);
            && (fast.Some? <==> Fits(rows, query)) && (plain.Some? <==> Fits(rows, query))
            && (fast.Some? ==>
                  && Mapped(ScoreOf, fast.value) == Mapped(ScoreOf, plain.value)
                  && FirstOf(HitsOf(ids, rows, query), Min(limit, |ids|), fast.value)
                  && (!TiedAt(HitsOf(ids, rows, query), Min(limit, |ids|)) ==> fast == plain))
  {
    if Fits(rows, query) {
      SearchIsFirst(ids, rows, query, limit, partition);
    }
  }

  /** Asking for all documents, a matrix with as many rows answers as the plain search over its rows, and one with fewer raises. */
  lemma AllHits(ids: seq<string>, rows: Matrix, query: seq<real>, partition: (seq<real>, nat) -> seq<nat>)
    requires |rows| <= |ids| && Fits(rows, query) && Partitioner(partition)
    ensures Search(ids, rows, query, |ids|, partition) == if |rows| == |ids| then PlainSearch(ids, rows, query, |ids|) else None
  {
    if |rows| == |ids| {
      MatrixSearchRefinesPlainSearch(ids, rows, query, |ids|, partition);
    } else {
      assert Range(|ids|)[|rows|] == |rows| && |rows| in Range(|ids|);
    }
  }

  lemma AllHitsAreThere(ids: seq<string>, rows: Matrix, query: seq<real>, i: nat)
    requires |ids| == |rows| && Fits(rows, query) && i < |ids|
    ensures Hit(ids[i], Dot(rows[i], query)) in PlainSearch(ids, rows, query, |ids|).value
  {
    var all := HitsOf(ids, rows, query);
    assert Sort(all, Before)[..|ids|] == Sort(all, Before);
    var k := PlaceOf(Sort(all, Before), all[i], all);
  }

  // ----- where the matrix and its identifiers come from -----

  function StoredIds(documents: seq<Document>): seq<string> {
    if documents == [] then []
    else
      var front, last := StoredIds(documents[..|documents| - 1]), documents[|documents| - 1];
      if Stored(last) then front + [last.id] else front
  }

  /** Identifier and row i are those of one document, and each document with both has its place, in order. */
  ghost predicate SideBySide(documents: seq<Document>, ids: seq<string>, rows: Matrix, places: seq<nat>) {
    && |places| == |ids| == |rows|
    && (forall i :: 0 <= i < |places| ==>
          places[i] < |documents| && Stored(documents[places[i]]) && ids[i] == documents[places[i]].id && rows[i] == documents[places[i]].vector)
    && (forall i, j :: 0 <= i < j < |places| ==> places[i] < places[j])
    && (forall p: nat :: p < |documents| && Stored(documents[p]) ==> p in places)
  }

  lemma {:induction false} StoredSideBySide(documents: seq<Document>) returns (places: seq<nat>)
    ensures SideBySide(documents, StoredIds(documents), RowsOf(documents), places)
  {
    places := [];
    if documents != [] {
      var n := |documents| - 1;
      var front := StoredSideBySide(documents[..n]);
      SideBySideOneMore(documents, StoredIds(documents[..n]), RowsOf(documents[..n]), front);
      places := if Stored(documents[n]) then front + [n] else front;
    }
  }

  lemma SideBySideOneMore(documents: seq<Document>, ids: seq<string>, rows: Matrix, places: seq<nat>)
    requires documents != [] && SideBySide(documents[..|documents| - 1], ids, rows, places)
    ensures var n := |documents| - 1;
            if Stored(documents[n]) then SideBySide(documents, ids + [documents[n].id], rows + [documents[n].vector], places + [n])
            else SideBySide(documents, ids, rows, places)
  {
    var n := |documents| - 1;
    forall p: nat | p < |documents| && Stored(documents[p]) ensures p in places || p == n {
      assert p < n ==> documents[..n][p] == documents[p];
    }
    forall i | 0 <= i < |places| ensures documents[..n][places[i]] == documents[places[i]] {
    }
  }

  /** The identifiers and rows of a record in memory, side by side. */
  method SearchRows(documents: seq<Document>) returns (identifiers: seq<string>, matrix: Matrix)
    ensures identifiers == StoredIds(documents) && matrix == RowsOf(documents)
    ensures exists places :: SideBySide(documents, identifiers, matrix, places)
  {
    ghost var places := StoredSideBySide(documents);
    identifiers, matrix := [], [];
    for i := 0 to |documents|
      invariant identifiers == StoredIds(documents[..i]) && matrix == RowsOf(documents[..i]) && |identifiers| == |matrix|
    {
      assert documents[..i + 1][..i] == documents[..i];
      if documents[i].id != "" && documents[i].vector != [] {
        identifiers, matrix := identifiers + [documents[i].id], matrix + [documents[i].vector];
      }
    }
    assert documents[..|documents|] == documents;
  }

  /** Row i is the vector of identifier i when every document with an id has a vector. */
  lemma {:induction false} RowsFollowIdentifiers(documents: seq<Document>)
    requires forall d <- documents :: Stored(d)
    ensures |Identifiers(documents)| == |RowsOf(documents)| == |documents|
    ensures forall i :: 0 <= i < |documents| ==> Identifiers(documents)[i] == documents[i].id && RowsOf(documents)[i] == documents[i].vector
  {
    if documents != [] {
      RowsFollowIdentifiers(documents[..|documents| - 1]);
    }
  }

  function LoadMatrix(files: Files, key: IndexKey, seen: set<IndexKey>): (r: (Files, Option<Matrix>))
    decreases files.aliases.Keys - seen
  {
    if key in seen then (files, None)
    else if key in files.matrices then (files, Some(files.matrices[key]))
    else if key !in files.aliases then (files, None)
    else if files.aliases[key].fingerprint == "" then (files.(aliases := files.aliases - {key}), None)
    else LoadMatrix(files, files.aliases[key], seen + {key})
  }

  /** What a search of an index that is not in memory starts with: identifiers of the status file, rows of the matrix file. */
  function FileSearchState(files: Files, key: IndexKey): Option<(seq<string>, Matrix)> {
    var (files1, status) := LoadStatus(files, key, {});
    if status.Some? && status.value.ready && status.value.identifiers != [] then
      var matrix := LoadMatrix(files1, key, {}).1;
      if matrix.Some? then Some((status.value.identifiers, matrix.value)) else None
    else None
  }

  /** An index that is not finalized, or lists nothing, is not searched from its files. */
  lemma OnlyFinishedIndexesAreSearched(files: Files, key: IndexKey)
    ensures FileSearchState(files, key).Some? ==>
              var status := LoadStatus(files, key, {}).1; status.Some? && status.value.ready && status.value.identifiers != []
  {
  }

  function FileSearch(files: Files, key: IndexKey, query: seq<real>, limit: nat, partition: (seq<real>, nat) -> seq<nat>): Option<seq<Hit>> {
    var state := FileSearchState(files, key);
    if state.None? then None else Search(state.value.0, state.value.1, query, limit, partition)
  }

  function IdsIn(documents: seq<Document>): seq<string> {
    seq(|documents|, i requires 0 <= i < |documents| => documents[i].id)
  }

  function VectorsIn(documents: seq<Document>): Matrix {
    seq(|documents|, i requires 0 <= i < |documents| => documents[i].vector)
  }

  /** After a full write the files hold each identifier's own row. */
  lemma WrittenIndexIsAligned(files: Files, key: IndexKey, record: Record)
    requires record.ready && record.documents != [] && forall d <- record.documents :: Stored(d)
    ensures FileSearchState(WriteCache(files, key, record), key) == Some((IdsIn(record.documents), VectorsIn(record.documents)))
  {
    RowsFollowIdentifiers(record.documents);
    assert Identifiers(record.documents) == IdsIn(record.documents);
    assert RowsOf(record.documents) == VectorsIn(record.documents);
  }

  /** So after a restart the file search of a finalized index refines the plain search over its documents. */
  lemma FileSearchRefinesPlainSearch(files: Files, key: IndexKey, record: Record, query: seq<real>, limit: nat,
                                     partition: (seq<real>, nat) -> seq<nat>)
    requires record.ready && record.documents != [] && (forall d <- record.documents :: Stored(d)) && Partitioner(partition)
    ensures var ids, vectors := IdsIn(record.documents), VectorsIn(record.documents);
            var plain, fast := PlainSearch(ids, vectors, query, limit), FileSearch(WriteCache(files, key, record), key, query, limit, partition);
            && (fast.Some? <==> plain.Some?)
            && (fast.Some? ==> FirstOf(HitsOf(ids, vectors, query), Min(limit, |ids|), fast.value))
  {
    WrittenIndexIsAligned(files, key, record);
    MatrixSearchRefinesPlainSearch(IdsIn(record.documents), VectorsIn(record.documents), query, limit, partition);
  }

  ghost predicate Keyed(files: Files, key: IndexKey, documents: seq<Document>) {
    key in files.matrices && files.matrices[key] == VectorsIn(documents)
  }

  /**
   A clone lists the documents of its source but has no matrix of its own: at the moment it is made its
   search is aligned exactly when no other matrix of an earlier life lies under its name.
   */
  lemma CloneIsAlignedIffNoOldMatrix(shardOf: string -> string, s: Service, source: IndexKey, target: IndexKey, record: Record)
    requires source != target && source.fingerprint != ""
    requires record.ready && record.documents != [] && forall d <- record.documents :: Stored(d) && d.fingerprint != ""
    requires source in s.files.statuses && s.files.statuses[source] == StatusOf(record) && Keyed(s.files, source, record.documents)
    ensures var (s', cloned) := CloneCache(shardOf, s, source, target);
            && cloned
            && (FileSearchState(s'.files, target) == Some((IdsIn(record.documents), VectorsIn(record.documents)))
                <==> (target in s.files.matrices ==> Keyed(s.files, target, record.documents)))
  {
    ReconstructibleMeta(record.documents);
    var listed := Listed(MetaOf(record.documents));
    ReconstructibleMeta(listed);
    assert Identifiers(listed) == IdsIn(record.documents);
    var files := CloneCache(shardOf, s, source, target).0.files;
    assert files.statuses[target].identifiers == IdsIn(record.documents) && |IdsIn(record.documents)| > 0;
    assert LoadMatrix(files, source, {} + {target}).1 == Some(VectorsIn(record.documents));
    assert target !in files.matrices ==> LoadMatrix(files, target, {}) == LoadMatrix(files, source, {} + {target});
  }

  /** The way it goes wrong: the same documents were finalized under the clone's name before, in another order. */
  lemma AnOldMatrixSwapsVectors(shardOf: string -> string, vectors: V.Store, profile: string, model: string, a: Document, b: Document)
    requires Stored(a) && Stored(b) && a.fingerprint != "" && b.fingerprint != ""
    ensures var source, target := IndexKey(profile, "base"), IndexKey(profile, "target");
            var files := WriteCache(WriteCache(Files(map[], map[], map[], map[]), target, Record(true, model, [b, a])), source, Record(true, model, [a, b]));
            var s := CloneCache(shardOf, Service(map[], files, vectors), source, target).0;
            FileSearchState(s.files, target) == Some(([a.id, b.id], [b.vector, a.vector]))
  {
    var source, target := IndexKey(profile, "base"), IndexKey(profile, "target");
    var ab, ba := [a, b], [b, a];
    ReconstructibleMeta(ab);
    var listed := Listed(MetaOf(ab));
    ReconstructibleMeta(listed);
    RowsFollowIdentifiers(ba);
    assert RowsOf(ba) == [b.vector, a.vector];
    assert Identifiers(listed) == [a.id, b.id];
  }
}
