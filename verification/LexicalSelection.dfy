/** The end of a lexical search: from scored chunks to the ranked few, one per path before any path gets a second. */
module LexicalSelection {
  import opened Prelude
  import opened MatrixSearch

  type PathOf = string -> string

  function PathsIn(hits: seq<Hit>, pathOf: PathOf): set<string> {
    set h | h in hits :: pathOf(h.id)
  }

  /** The first hit of each path. */
  function Leaders(all: seq<Hit>, pathOf: PathOf): seq<Hit> {
    if all == [] then []
    else
      var front, last := all[..|all| - 1], all[|all| - 1];
      if pathOf(last.id) in PathsIn(front, pathOf) then Leaders(front, pathOf) else Leaders(front, pathOf) + [last]
  }

  /** All the other hits. */
  function Others(all: seq<Hit>, pathOf: PathOf): seq<Hit> {
    if all == [] then []
    else
      var front, last := all[..|all| - 1], all[|all| - 1];
      if pathOf(last.id) in PathsIn(front, pathOf) then Others(front, pathOf) + [last] else Others(front, pathOf)
  }

  /** The order in which hits are given ranks. */
  function RankOrder(hits: seq<Hit>, pathOf: PathOf): seq<Hit> {
    Leaders(Sort(hits, Before), pathOf) + Others(Sort(hits, Before), pathOf)
  }

  ghost predicate UniqueHitIds(hits: seq<Hit>) {
    forall i, j :: 0 <= i < j < |hits| ==> hits[i].id != hits[j].id
  }

  lemma PathsOneMore(hits: seq<Hit>, h: Hit, pathOf: PathOf)
    ensures PathsIn(hits + [h], pathOf) == PathsIn(hits, pathOf) + {pathOf(h.id)}
  {
  }

  /** What one more hit does to both lists. */
  lemma SplitOneMore(front: seq<Hit>, h: Hit, pathOf: PathOf)
    ensures var known := pathOf(h.id) in PathsIn(front, pathOf);
            && Leaders(front + [h], pathOf) == Leaders(front, pathOf) + (if known then [] else [h])
            && Others(front + [h], pathOf) == Others(front, pathOf) + (if known then [h] else [])
  {
    assert (front + [h])[..|front|] == front;
  }

  lemma {:induction false} SplitKeepsHits(all: seq<Hit>, pathOf: PathOf)
    ensures multiset(Leaders(all, pathOf)) + multiset(Others(all, pathOf)) == multiset(all)
  {
    if all != [] {
      var front, last := all[..|all| - 1], all[|all| - 1];
      SplitKeepsHits(front, pathOf);
      assert all == front + [last];
    }
  }

  lemma {:induction false} LeadersKeepPaths(all: seq<Hit>, pathOf: PathOf)
    ensures PathsIn(Leaders(all, pathOf), pathOf) == PathsIn(all, pathOf)
    ensures |Leaders(all, pathOf)| == |PathsIn(all, pathOf)|
  {
    if all != [] {
      var front, last := all[..|all| - 1], all[|all| - 1];
      LeadersKeepPaths(front, pathOf);
      assert all == front + [last];
      PathsOneMore(front, last, pathOf);
      PathsOneMore(Leaders(front, pathOf), last, pathOf);
    }
  }

  lemma {:induction false} SplitStaysSorted(all: seq<Hit>, pathOf: PathOf)
    requires Sorted(all, Before)
    ensures Sorted(Leaders(all, pathOf), Before) && Sorted(Others(all, pathOf), Before)
    ensures forall h :: h in Leaders(all, pathOf) || h in Others(all, pathOf) ==> h in all
  {
    if all != [] {
      var front, last := all[..|all| - 1], all[|all| - 1];
      SplitStaysSorted(front, pathOf);
      forall h | h in front ensures !Before(last, h) {
        var i :| 0 <= i < |front| && front[i] == h;
      }
    }
  }

  /** No hit of a path comes before the path's leader. */
  lemma {:induction false} LeaderIsBest(all: seq<Hit>, pathOf: PathOf, h: Hit) returns (leader: Hit)
    requires Sorted(all, Before) && h in all
    ensures leader in Leaders(all, pathOf) && pathOf(leader.id) == pathOf(h.id) && (h == leader || !Before(h, leader))
  {
    var front, last := all[..|all| - 1], all[|all| - 1];
    if h in front {
      leader := LeaderIsBest(front, pathOf, h);
    } else if pathOf(last.id) in PathsIn(front, pathOf) {
      var g :| g in front && pathOf(g.id) == pathOf(last.id);
      leader := LeaderIsBest(front, pathOf, g);
      SplitStaysSorted(front, pathOf);
      var i :| 0 <= i < |front| && front[i] == leader;
    } else {
      leader := last;
    }
  }

  /** Before the limit is reached: the leaders in score order, one for each path, then the others in score order. */
  lemma RankOrderLeadsWithEachPath(hits: seq<Hit>, pathOf: PathOf)
    ensures var n, order := |PathsIn(hits, pathOf)|, RankOrder(hits, pathOf);
            && multiset(order) == multiset(hits) && n <= |order|
            && PathsIn(order[..n], pathOf) == PathsIn(hits, pathOf)
            && Sorted(order[..n], Before) && Sorted(order[n..], Before)
            && forall h :: h in hits ==> exists i :: 0 <= i < n && pathOf(order[i].id) == pathOf(h.id) && (h == order[i] || !Before(h, order[i]))
  {
    var all, n, order := Sort(hits, Before), |PathsIn(hits, pathOf)|, RankOrder(hits, pathOf);
    BeforeIsTotal();
    SortSorts(hits, Before);
    SortedMembers(hits, Before);
    assert PathsIn(all, pathOf) == PathsIn(hits, pathOf);
    SplitKeepsHits(all, pathOf);
    LeadersKeepPaths(all, pathOf);
    SplitStaysSorted(all, pathOf);
    assert order[..n] == Leaders(all, pathOf) && order[n..] == Others(all, pathOf);
    forall h | h in hits
      ensures exists i :: 0 <= i < n && pathOf(order[i].id) == pathOf(h.id) && (h == order[i] || !Before(h, order[i]))
    {
      var leader := LeaderIsBest(all, pathOf, h);
      var i :| 0 <= i < n && order[..n][i] == leader;
      assert order[i] == leader;
    }
  }

  /** So every path is represented whenever there is room for all paths. */
  lemma EveryPathAppearsWithinLimit(hits: seq<Hit>, pathOf: PathOf, limit: nat)
    requires |PathsIn(hits, pathOf)| <= limit
    ensures PathsIn(RankOrder(hits, pathOf)[..Min(limit, |RankOrder(hits, pathOf)|)], pathOf) == PathsIn(hits, pathOf)
  {
    RankOrderLeadsWithEachPath(hits, pathOf);
    var n, order := |PathsIn(hits, pathOf)|, RankOrder(hits, pathOf);
    var shown := order[..Min(limit, |order|)];
    forall p | p in PathsIn(hits, pathOf) ensures p in PathsIn(shown, pathOf) {
      var h :| h in order[..n] && pathOf(h.id) == p;
      assert h in shown;
    }
    forall h | h in shown ensures h in hits {
      assert h in order;
      assert h in multiset(hits);
    }
  }

  lemma ShownAreDistinct(hits: seq<Hit>, pathOf: PathOf, k: nat)
    requires UniqueHitIds(hits) && k <= |RankOrder(hits, pathOf)|
    ensures UniqueHitIds(RankOrder(hits, pathOf)[..k])
  {
    RankOrderLeadsWithEachPath(hits, pathOf);
    var order := RankOrder(hits, pathOf);
    UniqueHits(hits, order);
  }

  lemma UniqueHits(hits: seq<Hit>, order: seq<Hit>)
    requires UniqueHitIds(hits) && multiset(order) == multiset(hits)
    ensures UniqueHitIds(order)
  {
    UniquePermutation(hits, order);
    forall i, j | 0 <= i < j < |order| ensures order[i].id != order[j].id {
      assert order[i] in multiset(hits) && order[j] in multiset(hits);
      var a :| 0 <= a < |hits| && hits[a] == order[i];
      var b :| 0 <= b < |hits| && hits[b] == order[j];
    }
  }

  lemma NextHit(all: seq<Hit>, i: nat, pathOf: PathOf)
    requires i < |all|
    ensures var h, known := all[i], pathOf(all[i].id) in PathsIn(all[..i], pathOf);
            && PathsIn(all[..i + 1], pathOf) == PathsIn(all[..i], pathOf) + {pathOf(h.id)}
            && Leaders(all[..i + 1], pathOf) == Leaders(all[..i], pathOf) + (if known then [] else [h])
            && Others(all[..i + 1], pathOf) == Others(all[..i], pathOf) + (if known then [h] else [])
  {
    assert all[..i + 1] == all[..i] + [all[i]];
    PathsOneMore(all[..i], all[i], pathOf);
    SplitOneMore(all[..i], all[i], pathOf);
  }

  lemma CutAt(all: seq<Hit>, i: nat, pathOf: PathOf, limit: nat)
    requires i <= |all|
    ensures |Leaders(all[..i], pathOf)| == limit ==> Leaders(all[..i], pathOf) == Leaders(all, pathOf)[..Min(limit, |Leaders(all, pathOf)|)]
    ensures |Others(all[..i], pathOf)| == limit ==> Others(all[..i], pathOf) == Others(all, pathOf)[..Min(limit, |Others(all, pathOf)|)]
  {
    LeadersPrefix(all, pathOf, i);
    OthersPrefix(all, pathOf, i);
  }

  /** Takes the best hit of each path until the limit is reached. */
  method FirstPass(all: seq<Hit>, pathOf: PathOf, limit: nat) returns (ranked: seq<Hit>, selected: set<string>)
    requires limit >= 1
    ensures ranked == Leaders(all, pathOf)[..Min(limit, |Leaders(all, pathOf)|)] && selected == IdsOf(ranked)
  {
    ranked, selected := [], {};
    var seen: set<string> := {};
    for i := 0 to |all|
      invariant ranked == Leaders(all[..i], pathOf) && seen == PathsIn(all[..i], pathOf)
      invariant selected == IdsOf(ranked) && |ranked| < limit
    {
      NextHit(all, i, pathOf);
      if pathOf(all[i].id) in seen {
        continue;
      }
      OneIdMore(ranked, all[i]);
      seen, selected := seen + {pathOf(all[i].id)}, selected + {all[i].id};
      ranked := ranked + [all[i]];
      if |ranked| >= limit {
        CutAt(all, i + 1, pathOf, limit);
        return;
      }
    }
    assert all[..|all|] == all;
  }

  lemma OneIdMore(hits: seq<Hit>, h: Hit)
    ensures IdsOf(hits + [h]) == IdsOf(hits) + {h.id}
  {
  }

  lemma NextOther(all: seq<Hit>, i: nat, pathOf: PathOf, selected: set<string>)
    requires UniqueHitIds(all) && i < |all| && selected == IdsOf(Leaders(all, pathOf))
    ensures Others(all[..i + 1], pathOf) == if all[i].id in selected then Others(all[..i], pathOf) else Others(all[..i], pathOf) + [all[i]]
  {
    NextHit(all, i, pathOf);
    OtherIffNotLeader(all, pathOf, i);
  }

  /** Fills up with the hits not selected yet. */
  method SecondPass(all: seq<Hit>, pathOf: PathOf, room: nat, selected: set<string>) returns (more: seq<Hit>)
    requires UniqueHitIds(all) && selected == IdsOf(Leaders(all, pathOf)) && room >= 1
    ensures more == Others(all, pathOf)[..Min(room, |Others(all, pathOf)|)]
  {
    more := [];
    for i := 0 to |all|
      invariant more == Others(all[..i], pathOf) && |more| < room
    {
      NextOther(all, i, pathOf, selected);
      CutAt(all, i + 1, pathOf, room);
      if all[i].id in selected {
        continue;
      }
      more := more + [all[i]];
      if |more| >= room {
        return;
      }
    }
    assert all[..|all|] == all;
  }

  lemma CutOfSum<T>(a: seq<T>, b: seq<T>, limit: nat)
    ensures (a + b)[..Min(limit, |a + b|)] == if limit <= |a| then a[..Min(limit, |a|)] else a + b[..Min(limit - |a|, |b|)]
    ensures limit > |a| ==> a[..Min(limit, |a|)] == a
  {
  }

  /** The selection as it is made: a first pass over the sorted hits takes one per path, a second one fills up. */
  method SelectRanked(hits: seq<Hit>, pathOf: PathOf, limit: nat) returns (ranked: seq<Hit>)
    requires UniqueHitIds(hits) && limit >= 1
    ensures ranked == RankOrder(hits, pathOf)[..Min(limit, |RankOrder(hits, pathOf)|)]
  {
    var all := Sort(hits, Before);
    UniqueHits(hits, all);
    CutOfSum(Leaders(all, pathOf), Others(all, pathOf), limit);
    var selected;
    ranked, selected := FirstPass(all, pathOf, limit);
    if |ranked| < limit {
      var more := SecondPass(all, pathOf, limit - |ranked|, selected);
      ranked := ranked + more;
    }
  }

  function IdsOf(hits: seq<Hit>): set<string> {
    set h | h in hits :: h.id
  }

  lemma {:induction false} LeadersPrefix(all: seq<Hit>, pathOf: PathOf, i: nat)
    requires i <= |all|
    ensures Leaders(all[..i], pathOf) <= Leaders(all, pathOf)
    ensures Leaders(all[..i], pathOf) == Leaders(all, pathOf)[..|Leaders(all[..i], pathOf)|]
  {
    if i == |all| {
      assert all[..i] == all;
    } else {
      LeadersPrefix(all[..|all| - 1], pathOf, i);
      assert all[..|all| - 1][..i] == all[..i];
    }
  }

  lemma {:induction false} OthersPrefix(all: seq<Hit>, pathOf: PathOf, i: nat)
    requires i <= |all|
    ensures Others(all[..i], pathOf) <= Others(all, pathOf)
    ensures Others(all[..i], pathOf) == Others(all, pathOf)[..|Others(all[..i], pathOf)|]
  {
    if i == |all| {
      assert all[..i] == all;
    } else {
      OthersPrefix(all[..|all| - 1], pathOf, i);
      assert all[..|all| - 1][..i] == all[..i];
    }
  }

  /** With distinct ids, the second pass skips exactly the leaders. */
  lemma {:induction false} OtherIffNotLeader(all: seq<Hit>, pathOf: PathOf, i: nat)
    requires UniqueHitIds(all) && i < |all|
    ensures all[i].id in IdsOf(Leaders(all, pathOf)) <==> pathOf(all[i].id) !in PathsIn(all[..i], pathOf)
  {
    var n := |all| - 1;
    var front := all[..n];
    if i < n {
      OtherIffNotLeader(front, pathOf, i);
      assert front[..i] == all[..i];
      assert all[n].id != all[i].id;
    } else {
      LastIdIsNew(all, pathOf);
    }
  }

  lemma LastIdIsNew(all: seq<Hit>, pathOf: PathOf)
    requires UniqueHitIds(all) && all != []
    ensures all[|all| - 1].id !in IdsOf(Leaders(all[..|all| - 1], pathOf))
  {
    var front := all[..|all| - 1];
    LeadersAreHits(front, pathOf);
    forall h | h in Leaders(front, pathOf) ensures h.id != all[|all| - 1].id {
      var j :| 0 <= j < |front| && front[j] == h;
      assert all[j] == h;
    }
  }

  lemma {:induction false} LeadersAreHits(all: seq<Hit>, pathOf: PathOf)
    ensures forall h :: h in Leaders(all, pathOf) ==> h in all
  {
    if all != [] {
      LeadersAreHits(all[..|all| - 1], pathOf);
    }
  }
}
