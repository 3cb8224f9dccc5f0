/** The leaderboard's two indexes and its top-n query (leaderboard_store.cpp). */
module Leaderboards {
  import opened Seqs
  import opened Sorting

  datatype Entry = Entry(id: string, score: int)

  /** Higher score first, then the smaller id. */
  predicate RanksBefore(a: Entry, b: Entry) {
    if a.score != b.score then a.score > b.score else LexLess(a.id, b.id)
  }

  lemma RanksBeforeIsAnOrder()
    ensures Transitive(RanksBefore) && Asymmetric(RanksBefore)
  {
    forall a: Entry, b: Entry, c: Entry | RanksBefore(a, b) && RanksBefore(b, c) ensures RanksBefore(a, c) {
      if a.score == b.score == c.score {
        LexTransitive(a.id, b.id, c.id);
      }
    }
    forall a: Entry, b: Entry | RanksBefore(a, b) ensures !RanksBefore(b, a) {
      LexAsymmetric(a.id, b.id);
    }
  }

  lemma NamesRank()
    ensures Transitive(LexLess) && forall a: string, b: string :: a != b ==> LexLess(a, b) || LexLess(b, a)
  {
    forall a, b, c | LexLess(a, b) && LexLess(b, c) ensures LexLess(a, c) {
      LexTransitive(a, b, c);
    }
    forall a: string, b: string | a != b ensures LexLess(a, b) || LexLess(b, a) {
      LexTotal(a, b);
    }
  }

  lemma DifferentIdsRank(a: Entry, b: Entry)
    requires a.id != b.id
    ensures RanksBefore(a, b) || RanksBefore(b, a)
  {
    LexTotal(a.id, b.id);
  }

  ghost function Entries(scores: map<string, int>): seq<Entry> {
    if scores == map[] then []
    else
      var id :| id in scores;
      [Entry(id, scores[id])] + Entries(scores - {id})
  }

  /** The reference: every entry, sorted. */
  ghost function Ranking(scores: map<string, int>): seq<Entry> {
    Sort(RanksBefore, Entries(scores))
  }

  ghost predicate IsRanking(r: seq<Entry>, scores: map<string, int>) {
    && Sorted(RanksBefore, r)
    && forall e :: e in r <==> e.id in scores && scores[e.id] == e.score
  }

  lemma {:induction false} EntriesMembers(scores: map<string, int>)
    ensures forall e :: e in Entries(scores) <==> e.id in scores && scores[e.id] == e.score
    ensures |Entries(scores)| == |scores|
    decreases |scores|
  {
    if scores != map[] {
      var id :| id in scores && Entries(scores) == [Entry(id, scores[id])] + Entries(scores - {id});
      EntriesMembers(scores - {id});
      assert (scores - {id}).Keys == scores.Keys - {id};
    }
  }

  lemma {:induction false} EntriesComparable(scores: map<string, int>)
    ensures Comparable(RanksBefore, Entries(scores))
    decreases |scores|
  {
    if scores != map[] {
      var id :| id in scores && Entries(scores) == [Entry(id, scores[id])] + Entries(scores - {id});
      EntriesComparable(scores - {id});
      EntriesMembers(scores - {id});
      forall e | e in Entries(scores - {id})
        ensures RanksBefore(Entry(id, scores[id]), e) || RanksBefore(e, Entry(id, scores[id]))
      {
        DifferentIdsRank(Entry(id, scores[id]), e);
      }
    }
  }

  lemma RankingIsRanking(scores: map<string, int>)
    ensures IsRanking(Ranking(scores), scores) && |Ranking(scores)| == |scores|
  {
    EntriesMembers(scores);
    EntriesComparable(scores);
    RanksBeforeIsAnOrder();
    SortPermutes(RanksBefore, Entries(scores));
    SortSorts(RanksBefore, Entries(scores));
  }

  lemma RankingUnique(r: seq<Entry>, scores: map<string, int>)
    requires IsRanking(r, scores)
    ensures r == Ranking(scores)
  {
    RankingIsRanking(scores);
    RanksBeforeIsAnOrder();
    SortedUnique(RanksBefore, r, Ranking(scores));
  }

  function First<T>(s: seq<T>, n: nat): seq<T> {
    if |s| <= n then s else s[..n]
  }

  ghost predicate Lists(ordered: map<int, set<string>>, score: int, id: string) {
    score in ordered && id in ordered[score]
  }

  ghost predicate NoEmptySet(ordered: map<int, set<string>>) {
    forall score :: score in ordered ==> ordered[score] != {}
  }

  predicate Above(a: int, b: int) {
    a > b
  }

  /** Both indexes hold the same pairs, and no score is listed without players. */
  ghost predicate Agree(scores: map<string, int>, ordered: map<int, set<string>>) {
    && (forall id, score :: Lists(ordered, score, id) <==> id in scores && scores[id] == score)
    && NoEmptySet(ordered)
  }

  /** Exactly the entries whose score is one of `seen`, ranked. */
  ghost predicate Listing(part: seq<Entry>, scores: map<string, int>, seen: seq<int>) {
    && Sorted(RanksBefore, part)
    && forall e :: e in part <==> e.id in scores && scores[e.id] == e.score && e.score in seen
  }

  function Tagged(names: seq<string>, score: int): seq<Entry> {
    seq(|names|, i requires 0 <= i < |names| => Entry(names[i], score))
  }

  lemma AppendScore(part: seq<Entry>, scores: map<string, int>, seen: seq<int>, score: int, names: seq<string>)
    requires Listing(part, scores, seen) && forall s :: s in seen ==> s > score
    requires Sorted(LexLess, names) && forall id :: id in names <==> id in scores && scores[id] == score
    ensures Listing(part + Tagged(names, score), scores, seen + [score])
  {
    var tagged := Tagged(names, score);
    assert forall k :: 0 <= k < |names| ==> tagged[k] == Entry(names[k], score) && tagged[k].id in names;
    forall e ensures e in tagged <==> e.score == score && e.id in names {
      if e.score == score && e.id in names {
        var k :| 0 <= k < |names| && names[k] == e.id;
        assert tagged[k] == e;
      }
    }
    forall e: Entry ensures e.score in seen + [score] <==> e.score in seen || e.score == score {
    }
    forall i, j | 0 <= i < j < |part + tagged| ensures RanksBefore((part + tagged)[i], (part + tagged)[j]) {
      if i < |part| <= j {
        assert part[i] in part && part[i].score in seen;
      }
    }
  }

  /** A listing of the highest scores is where the ranking starts. */
  lemma ListingStartsRanking(part: seq<Entry>, scores: map<string, int>, seen: seq<int>)
    requires Listing(part, scores, seen)
    requires forall id, s :: id in scores && scores[id] !in seen && s in seen ==> s > scores[id]
    ensures part <= Ranking(scores)
  {
    var unseen := (e: Entry) => e.score !in seen;
    var rest := Filter(Ranking(scores), unseen);
    RankingIsRanking(scores);
    FilterMembers(Ranking(scores), unseen);
    FilterSorted(RanksBefore, Ranking(scores), unseen);
    forall i, j | 0 <= i < j < |part + rest| ensures RanksBefore((part + rest)[i], (part + rest)[j]) {
      if i < |part| <= j {
        assert part[i] in part && rest[j - |part|] in rest;
      }
    }
    assert forall e :: e in part + rest <==> e in part || e in rest;
    RankingUnique(part + rest, scores);
  }

  lemma ListedAreHigher(order: seq<int>, i: nat, scores: map<string, int>)
    requires i <= |order| && Sorted(Above, order)
    requires forall id :: id in scores ==> scores[id] in order
    ensures forall id, s :: id in scores && scores[id] !in order[..i] && s in order[..i] ==> s > scores[id]
  {
  }

  lemma ListingGrows(part: seq<Entry>, scores: map<string, int>, order: seq<int>, i: nat, names: seq<string>)
    requires i < |order| && Sorted(Above, order) && Listing(part, scores, order[..i])
    requires forall id :: id in scores ==> scores[id] in order
    requires Sorted(LexLess, names) && forall id :: id in names <==> id in scores && scores[id] == order[i]
    ensures Listing(part + Tagged(names, order[i]), scores, order[..i + 1])
    ensures part + Tagged(names, order[i]) <= Ranking(scores)
  {
    AppendScore(part, scores, order[..i], order[i], names);
    assert order[..i + 1] == order[..i] + [order[i]];
    ListedAreHigher(order, i + 1, scores);
    ListingStartsRanking(part + Tagged(names, order[i]), scores, order[..i + 1]);
  }

  /** A `std::set` or the keys of a `std::map`, in the container's own order. */
  method InOrder<T(!new, ==)>(less: (T, T) -> bool, elements: set<T>) returns (list: seq<T>)
    requires Transitive(less)
    requires forall x, y :: x in elements && y in elements && x != y ==> less(x, y) || less(y, x)
    ensures Sorted(less, list) && forall x :: x in list <==> x in elements
  {
    list := [];
    var rest := elements;
    while rest != {}
      invariant rest <= elements
      invariant Sorted(less, list) && forall x :: x in list <==> x in elements - rest
      decreases rest
    {
      var x :| x in rest;
      InsertSorts(less, x, list);
      InsertPermutes(less, x, list);
      ghost var before := list;
      list := Insert(less, x, list);
      assert forall y :: y in list <==> y in multiset(list);
      assert forall y :: y in before <==> y in multiset(before);
      rest := rest - {x};
    }
  }

  /** How `std::map` with `std::greater` walks its keys. */
  method Descending(keys: set<int>) returns (list: seq<int>)
    ensures Sorted(Above, list) && forall x :: x in list <==> x in keys
  {
    list := InOrder(Above, keys);
  }

  /** How `std::set<std::string>` walks its elements. */
  method Alphabetical(names: set<string>) returns (list: seq<string>)
    ensures Sorted(LexLess, list) && forall x :: x in list <==> x in names
  {
    NamesRank();
    list := InOrder(LexLess, names);
  }

  class InMemoryLeaderboardStore {
    var scores: map<string, int>
    var ordered: map<int, set<string>>

    ghost predicate Valid()
      reads this
    {
      Agree(scores, ordered)
    }

    constructor ()
      ensures Valid() && scores == map[]
    {
      scores, ordered := map[], map[];
    }

    method RemoveFromOrdered(id: string, score: int)
      requires NoEmptySet(ordered)
      modifies this`ordered
      ensures forall s, p :: Lists(ordered, s, p) <==> Lists(old(ordered), s, p) && !(s == score && p == id)
      ensures NoEmptySet(ordered)
    {
      if score !in ordered {
        return;
      }
      var players := ordered[score] - {id};
      if players == {} {
        assert forall p :: p in ordered[score] ==> p in players || p == id;
        ordered := ordered - {score};
      } else {
        ordered := ordered[score := players];
      }
    }

    method Upsert(id: string, score: int)
      requires Valid()
      modifies this
      ensures Valid() && scores == old(scores)[id := score]
    {
      if id in scores {
        if scores[id] == score {
          assert scores == scores[id := score];
          return;
        }
        RemoveFromOrdered(id, scores[id]);
      }
      ghost var without := ordered;
      scores := scores[id := score];
      ordered := ordered[score := (if score in ordered then ordered[score] else {}) + {id}];
      forall s, p ensures Lists(ordered, s, p) <==> Lists(without, s, p) || (s == score && p == id) {
      }
    }

    method Erase(id: string)
      requires Valid()
      modifies this
      ensures Valid() && scores == old(scores) - {id}
    {
      if id !in scores {
        assert scores - {id} == scores;
        return;
      }
      RemoveFromOrdered(id, scores[id]);
      scores := scores - {id};
    }

    /** The first `limit` entries of the ranking, read off the ordered index. */
    method TopN(limit: nat) returns (result: seq<Entry>)
      requires Valid()
      ensures result == First(Ranking(scores), limit)
    {
      result := [];
      var remaining := limit;
      var order := Descending(ordered.Keys);
      forall id | id in scores ensures scores[id] in order {
        assert Lists(ordered, scores[id], id);
      }
      var i := 0;
      while i < |order|
        invariant i <= |order|
        invariant Listing(result, scores, order[..i])
        invariant remaining == limit - |result|
      {
        var score := order[i];
        var names := Alphabetical(ordered[score]);
        ghost var grown := result + Tagged(names, score);
        assert forall id :: id in names <==> Lists(ordered, score, id);
        ListingGrows(result, scores, order, i, names);
        result, remaining := TakePlayers(result, names, score, remaining);
        if remaining == 0 {
          assert result == First(grown, limit);
          return;
        }
        assert result == grown;
        i := i + 1;
      }
      assert order[..i] == order;
      RankingUnique(result, scores);
    }

    /** The inner loop: players of one score are taken while there is room. */
    method TakePlayers(taken: seq<Entry>, names: seq<string>, score: int, room: nat)
      returns (result: seq<Entry>, remaining: nat)
      ensures result == First(taken + Tagged(names, score), |taken| + room)
      ensures remaining == |taken| + room - |result|
    {
      result, remaining := taken, room;
      var k := 0;
      while k < |names|
        invariant k <= |names|
        invariant result == (taken + Tagged(names, score))[..|taken| + k]
        invariant remaining == |taken| + room - |result|
      {
        if remaining == 0 {
          return;
        }
        result := result + [Entry(names[k], score)];
        remaining := remaining - 1;
        k := k + 1;
      }
    }

    method Size() returns (count: nat)
      requires Valid()
      ensures count == |Ranking(scores)|
    {
      RankingIsRanking(scores);
      count := |scores|;
    }
  }
}
