/** What any matching pass guarantees to the players in the queue. */
module MatchingGuarantees {
  import opened MatchRequests
  import opened Greedy
  import opened MatchQueues
  import opened Notifications
  import opened Matchmakers

  /** One pass: what it returned, the queue and the observed waits before and after, the matches created before. */
  datatype Pass = Pass(matches: seq<Match>, before: Contents, after: Contents, base: nat,
                       waitsBefore: seq<real>, waitsAfter: seq<real>, now: int)

  /** What `RunMatching` promises of a pass; the queue is valid before and after it. */
  ghost predicate Ran(p: Pass) {
    && DistinctOrders(p.before) && DistinctOrders(p.after)
    && PassedOver(p.matches, p.before, p.after, p.base, p.waitsBefore, p.waitsAfter, p.now)
  }

  lemma PlaceOf(c: Contents, q: seq<QueuedPlayer>, id: string) returns (i: nat)
    requires IsOrdering(q, c) && id in c && IdOf(c[id]) == id
    ensures i < |q| && q[i] == c[id]
  {
    assert c[id] in q;
    i :| 0 <= i < |q| && q[i] == c[id];
  }

  lemma RestIsSubset(p: Pass)
    requires Ran(p)
    ensures forall id :: id in p.after ==> id in p.before && p.after[id] == p.before[id]
  {
    var q := Ordering(p.before);
    OrderingIsOrdering(p.before);
    PartitionSets(q, FitsAt(p.now));
    forall id | id in p.after ensures id in p.before && p.after[id] == p.before[id] {
      assert p.after[id] in FirstFit(q, FitsAt(p.now)).rest;
      assert p.after[id] in q;
    }
  }

  /** Maximality: no two players left in the queue are region-compatible and within both tolerances. */
  lemma NobodyLeftCouldPlay(p: Pass, id: string, other: string)
    requires Ran(p) && id in p.after && other in p.after && id != other
    ensures !Acceptable(p.after[id].request, p.after[other].request, p.now)
  {
    var rest := FirstFit(Ordering(p.before), FitsAt(p.now)).rest;
    Maximal(Ordering(p.before), FitsAt(p.now));
    var i := PlaceOf(p.after, rest, id);
    var j := PlaceOf(p.after, rest, other);
    AcceptableIsSymmetric(p.after[id].request, p.after[other].request, p.now);
    if i < j {
      assert !FitsAt(p.now)(rest[i], rest[j]);
    } else {
      assert !FitsAt(p.now)(rest[j], rest[i]);
    }
  }

  lemma SecondPassIsIdle(p: Pass)
    requires Ran(p)
    ensures FirstFit(Ordering(p.after), FitsAt(p.now)) == Outcome([], Ordering(p.after))
  {
    var rest := FirstFit(Ordering(p.before), FitsAt(p.now)).rest;
    OrderingIsOrdering(p.after);
    OrderingUnique(rest, Ordering(p.after), p.after);
    Idempotent(Ordering(p.before), FitsAt(p.now));
  }

  /** Of two passes in a row at one time the second returns no match, observes no wait and leaves the same queue. */
  lemma SecondRunChangesNothing(first: Pass, second: Pass)
    requires Ran(first) && Ran(second) && second.before == first.after && second.now == first.now
    ensures second.matches == [] && second.after == second.before && second.waitsAfter == second.waitsBefore
  {
    SecondPassIsIdle(first);
    OrderingIsOrdering(second.before);
    assert IsOrdering(Ordering(second.before), second.after);
    RestIsSubset(second);
    forall id | id in second.before ensures id in second.after {
      assert second.before[id] in Ordering(second.before);
    }
  }

  /**
   * No overtaking: same rating and region, earlier order, enqueued no later: not left behind while the other is
   * matched.
   */
  lemma NobodyIsOvertaken(p: Pass, x: string, y: string)
    requires Ran(p) && x in p.before && y in p.before && x != y
    requires NoLaterThan(p.before[x], p.before[y]) && p.before[x].order < p.before[y].order
    ensures x in p.after ==> y in p.after
  {
    if x in p.after {
      var q := Ordering(p.before);
      OrderingIsOrdering(p.before);
      RestIsSubset(p);
      var i := PlaceOf(p.before, q, x);
      var j := PlaceOf(p.before, q, y);
      assert j < i ==> QueueBefore(q[j], q[i]);
      OrderingFacts(q, p.before);
      FitsAtIsFair(p.now);
      NoOvertaking(q, i, j, FitsAt(p.now));
      assert p.before[x] in FirstFit(q, FitsAt(p.now)).rest;
    }
  }

  /** Bounded wait: compatible players cannot both stay once each has waited the steps their distance needs. */
  lemma NobodyWaitsForever(p: Pass, x: string, y: string)
    requires Ran(p) && x in p.after && y in p.after && x != y
    requires RegionsCompatible(p.after[x].request, p.after[y].request)
    ensures var a, b := p.after[x].request, p.after[y].request;
      var steps := StepsNeeded(Distance(a, b));
      steps > 0 && (p.now < a.enqueuedAt + steps * STEP_NANOS || p.now < b.enqueuedAt + steps * STEP_NANOS)
  {
    NobodyLeftCouldPlay(p, x, y);
    AcceptableExactly(p.after[x].request, p.after[y].request, p.now);
  }

  // ----- the matches of a pass -----

  /** No player occurs twice, in one pair or in two. */
  ghost predicate AllDifferent(pairs: seq<Pairing>) {
    && (forall k :: 0 <= k < |pairs| ==> IdOf(pairs[k].first) != IdOf(pairs[k].second))
    && (forall k, l :: 0 <= k < l < |pairs| ==> Strangers(pairs[k], pairs[l]))
  }

  ghost predicate Strangers(a: Pairing, b: Pairing) {
    && IdOf(a.first) != IdOf(b.first) && IdOf(a.first) != IdOf(b.second)
    && IdOf(a.second) != IdOf(b.first) && IdOf(a.second) != IdOf(b.second)
  }

  lemma {:induction false} PairedIsMember(pairs: seq<Pairing>, k: nat)
    requires k < |pairs|
    ensures pairs[k].first in Members(pairs) && pairs[k].second in Members(pairs)
  {
    if k > 0 {
      PairedIsMember(pairs[1..], k - 1);
    }
  }

  /** The first pair's players are not among the later ones. */
  lemma HeadIsUnique(head: Pairing, later: multiset<QueuedPlayer>, q: seq<QueuedPlayer>)
    requires DistinctIds(q) && multiset{head.first, head.second} + later <= multiset(q)
    ensures head.first in q && head.second in q && head.first != head.second
    ensures head.first !in later && head.second !in later
  {
    DistinctIsOnce(q);
    var all := multiset{head.first, head.second} + later;
    assert all[head.first] <= 1 && all[head.second] <= 1;
  }

  lemma DifferentPlayers(q: seq<QueuedPlayer>, x: QueuedPlayer, y: QueuedPlayer)
    requires DistinctIds(q) && x in q && y in q && x != y
    ensures IdOf(x) != IdOf(y)
  {
  }

  lemma DifferentPairs(q: seq<QueuedPlayer>, a: Pairing, b: Pairing)
    requires DistinctIds(q) && a.first in q && a.second in q && b.first in q && b.second in q
    requires a.first != b.first && a.first != b.second && a.second != b.first && a.second != b.second
    ensures Strangers(a, b)
  {
    DifferentPlayers(q, a.first, b.first);
    DifferentPlayers(q, a.first, b.second);
    DifferentPlayers(q, a.second, b.first);
    DifferentPlayers(q, a.second, b.second);
  }

  lemma PairedIsQueued(pairs: seq<Pairing>, q: seq<QueuedPlayer>, k: nat)
    requires k < |pairs| && Members(pairs) <= multiset(q)
    ensures pairs[k].first in q && pairs[k].second in q
  {
    PairedIsMember(pairs, k);
    assert pairs[k].first in multiset(q) && pairs[k].second in multiset(q);
  }

  lemma HeadDiffers(pairs: seq<Pairing>, q: seq<QueuedPlayer>, l: nat)
    requires DistinctIds(q) && 1 <= l < |pairs| && Members(pairs) <= multiset(q)
    ensures Strangers(pairs[0], pairs[l])
  {
    HeadIsUnique(pairs[0], Members(pairs[1..]), q);
    PairedIsMember(pairs[1..], l - 1);
    PairedIsQueued(pairs, q, l);
    DifferentPairs(q, pairs[0], pairs[l]);
  }

  lemma {:induction false} MembersDiffer(pairs: seq<Pairing>, q: seq<QueuedPlayer>)
    requires DistinctIds(q) && Members(pairs) <= multiset(q)
    ensures AllDifferent(pairs)
  {
    if pairs != [] {
      var head, tail := pairs[0], pairs[1..];
      HeadIsUnique(head, Members(tail), q);
      DifferentPlayers(q, head.first, head.second);
      MembersDiffer(tail, q);
      forall k, l | 0 <= k < l < |pairs| ensures Strangers(pairs[k], pairs[l]) {
        if k == 0 {
          HeadDiffers(pairs, q, l);
        } else {
          assert pairs[k] == tail[k - 1] && pairs[l] == tail[l - 1];
        }
      }
    }
  }

  /** The pairs behind the matches: queued players, all different, each pair acceptable. */
  ghost predicate FairPairs(pairs: seq<Pairing>, before: Contents, now: int) {
    && AllDifferent(pairs)
    && forall k :: 0 <= k < |pairs| ==> Queued(pairs[k].first, before) && Queued(pairs[k].second, before)
                                        && CanPair(pairs[k].first, pairs[k].second, now)
  }

  ghost predicate Queued(x: QueuedPlayer, c: Contents) {
    IdOf(x) in c && c[IdOf(x)] == x
  }

  lemma PairsAreFair(p: Pass) returns (pairs: seq<Pairing>)
    requires Ran(p)
    ensures pairs == FirstFit(Ordering(p.before), FitsAt(p.now)).pairs
    ensures FairPairs(pairs, p.before, p.now)
  {
    var q := Ordering(p.before);
    pairs := FirstFit(q, FitsAt(p.now)).pairs;
    OrderingIsOrdering(p.before);
    OrderingFacts(q, p.before);
    Partition(q, FitsAt(p.now));
    MembersDiffer(pairs, q);
    PairsAcceptable(q, FitsAt(p.now));
    forall k | 0 <= k < |pairs| ensures Queued(pairs[k].first, p.before) && Queued(pairs[k].second, p.before)
                                        && CanPair(pairs[k].first, pairs[k].second, p.now)
    {
      PairedIsQueued(pairs, q, k);
      assert pairs[k] in pairs;
      assert FitsAt(p.now)(pairs[k].first, pairs[k].second);
    }
  }

  /** Match `k` is between two different queued players who accept each other at the time of the pass. */
  ghost predicate IsFairMatch(m: Match, before: Contents, now: int) {
    && |m.players| == 2 && m.players[0] != m.players[1]
    && m.players[0] in before && m.players[1] in before
    && Acceptable(before[m.players[0]].request, before[m.players[1]].request, now)
  }

  ghost predicate NobodyPlaysTwice(matches: seq<Match>) {
    forall k, l, id :: 0 <= k < l < |matches| && id in matches[k].players ==> id !in matches[l].players
  }

  lemma MatchesOfFairPairs(matches: seq<Match>, pairs: seq<Pairing>, base: nat, before: Contents, now: int)
    requires MatchesOf(matches, pairs, base, now) && FairPairs(pairs, before, now)
    ensures forall k :: 0 <= k < |matches| ==> IsFairMatch(matches[k], before, now)
    ensures NobodyPlaysTwice(matches)
  {
    forall k, l, id | 0 <= k < l < |matches| && id in matches[k].players ensures id !in matches[l].players {
      assert Strangers(pairs[k], pairs[l]);
    }
  }

  /** Every match of a pass is fair, and nobody is in two of them. */
  lemma MatchesAreFair(p: Pass)
    requires Ran(p)
    ensures forall k :: 0 <= k < |p.matches| ==> IsFairMatch(p.matches[k], p.before, p.now)
    ensures NobodyPlaysTwice(p.matches)
  {
    var pairs := PairsAreFair(p);
    MatchesOfFairPairs(p.matches, pairs, p.base, p.before, p.now);
  }

  ghost predicate Plays(matches: seq<Match>, id: string) {
    exists k :: 0 <= k < |matches| && id in matches[k].players
  }

  lemma {:induction false} MemberIsPaired(pairs: seq<Pairing>, x: QueuedPlayer) returns (k: nat)
    requires x in Members(pairs)
    ensures k < |pairs| && (pairs[k].first == x || pairs[k].second == x)
  {
    if x == pairs[0].first || x == pairs[0].second {
      k := 0;
    } else {
      k := MemberIsPaired(pairs[1..], x);
      k := k + 1;
    }
  }

  /** Each element of a list without repetition is in exactly one part of a partition. */
  lemma InOnePart(q: seq<QueuedPlayer>, paired: multiset<QueuedPlayer>, rest: seq<QueuedPlayer>, x: QueuedPlayer)
    requires DistinctIds(q) && x in q && multiset(q) == paired + multiset(rest)
    ensures x in paired <==> x !in rest
  {
    DistinctIsOnce(q);
    assert x in multiset(q);
    assert x in multiset(rest) <==> x in rest;
  }

  lemma PlaysIfPaired(matches: seq<Match>, pairs: seq<Pairing>, base: nat, before: Contents, now: int, x: QueuedPlayer)
    requires MatchesOf(matches, pairs, base, now) && FairPairs(pairs, before, now) && Queued(x, before)
    ensures Plays(matches, IdOf(x)) <==> x in Members(pairs)
  {
    if x in Members(pairs) {
      var k := MemberIsPaired(pairs, x);
      assert IdOf(x) in matches[k].players;
    }
    if Plays(matches, IdOf(x)) {
      var k :| 0 <= k < |matches| && IdOf(x) in matches[k].players;
      PairedIsMember(pairs, k);
    }
  }

  /** Everybody queued before a pass is in one of its matches or still queued as before, never both. */
  lemma MatchedOrQueued(p: Pass, id: string)
    requires Ran(p) && id in p.before
    ensures Plays(p.matches, id) <==> id !in p.after
    ensures id in p.after ==> p.after[id] == p.before[id]
  {
    var q, x := Ordering(p.before), p.before[id];
    OrderingIsOrdering(p.before);
    OrderingFacts(q, p.before);
    RestIsSubset(p);
    Partition(q, FitsAt(p.now));
    var pairs := PairsAreFair(p);
    InOnePart(q, Members(pairs), FirstFit(q, FitsAt(p.now)).rest, x);
    PlaysIfPaired(p.matches, pairs, p.base, p.before, p.now, x);
  }
}
