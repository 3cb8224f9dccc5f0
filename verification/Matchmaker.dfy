/** The matchmaker: enqueueing, cancelling, matching passes and their accounting (matchmaker.cpp). */
module Matchmakers {
  import opened Seqs
  import opened Sorting
  import opened MatchRequests
  import opened Greedy
  import opened MatchQueues
  import opened PrunedScan
  import opened Notifications

  const BUCKETS: nat := 6
  const BOUNDS: seq<real> := [0.0, 5.0, 10.0, 20.0, 40.0, 80.0]

  ghost function AtMost(bound: real): real -> bool {
    (w: real) => w <= bound
  }

  ghost function Above(bound: real): real -> bool {
    (w: real) => w > bound
  }

  /** The waits of bucket `i`: within its bound and beyond the one before. */
  ghost function InBucket(i: nat): real -> bool
    requires i < BUCKETS
  {
    (w: real) => w <= BOUNDS[i] && (i == 0 || w > BOUNDS[i - 1])
  }

  ghost function SumOf(waits: seq<real>): real {
    if waits == [] then 0.0 else SumOf(waits[..|waits| - 1]) + waits[|waits| - 1]
  }

  ghost function SumUpTo(counts: seq<nat>, i: nat): nat
    requires i < |counts|
  {
    counts[i] + (if i == 0 then 0 else SumUpTo(counts, i - 1))
  }

  /** The histogram counts exactly the observed waits. */
  ghost predicate Tallied(counts: seq<nat>, overflow: nat, waits: seq<real>) {
    && |counts| == BUCKETS
    && (forall i :: 0 <= i < BUCKETS ==> counts[i] == Count(waits, InBucket(i)))
    && overflow == Count(waits, Above(80.0))
  }

  lemma {:induction false} CountSplit(waits: seq<real>, p: real -> bool, q: real -> bool, both: real -> bool)
    requires forall w :: both(w) <==> p(w) || q(w)
    requires forall w :: !(p(w) && q(w))
    ensures Count(waits, both) == Count(waits, p) + Count(waits, q)
  {
    if waits != [] {
      CountSplit(waits[..|waits| - 1], p, q, both);
    }
  }

  /** Each cumulative bucket of the exported histogram is the number of waits within its bound. */
  lemma {:induction false} CumulativeBucket(counts: seq<nat>, overflow: nat, waits: seq<real>, i: nat)
    requires Tallied(counts, overflow, waits) && i < BUCKETS
    ensures SumUpTo(counts, i) == Count(waits, AtMost(BOUNDS[i]))
  {
    if i == 0 {
      CountSame(waits, InBucket(0), AtMost(BOUNDS[0]));
    } else {
      CumulativeBucket(counts, overflow, waits, i - 1);
      CountSplit(waits, AtMost(BOUNDS[i - 1]), InBucket(i), AtMost(BOUNDS[i]));
    }
  }

  lemma {:induction false} CountSame(waits: seq<real>, p: real -> bool, q: real -> bool)
    requires forall w :: p(w) <==> q(w)
    ensures Count(waits, p) == Count(waits, q)
  {
    if waits != [] {
      CountSame(waits[..|waits| - 1], p, q);
    }
  }

  lemma {:induction false} CountEverything(waits: seq<real>)
    ensures Count(waits, AtMost(80.0)) + Count(waits, Above(80.0)) == |waits|
  {
    if waits != [] {
      CountEverything(waits[..|waits| - 1]);
    }
  }

  /** All buckets and the overflow together are all the waits. */
  lemma BucketsCoverWaits(counts: seq<nat>, overflow: nat, waits: seq<real>)
    requires Tallied(counts, overflow, waits)
    ensures SumUpTo(counts, BUCKETS - 1) + overflow == |waits|
  {
    CumulativeBucket(counts, overflow, waits, BUCKETS - 1);
    CountEverything(waits);
  }

  /** C++ integer division truncates toward zero. */
  function Halved(n: int): int {
    if n < 0 then -((-n) / 2) else n / 2
  }

  function MatchOf(pair: Pairing, id: nat, now: int): Match {
    var a, b := pair.first.request, pair.second.request;
    Match(id, [a.playerId, b.playerId], Halved(a.elo + b.elo), now, ResolveRegion(a, b))
  }

  /** The matches of a pass, numbered from `base + 1`. */
  ghost predicate MatchesOf(matches: seq<Match>, pairs: seq<Pairing>, base: nat, now: int) {
    && |matches| == |pairs|
    && forall k :: 0 <= k < |pairs| ==> matches[k] == MatchOf(pairs[k], base + k + 1, now)
  }

  ghost function WaitsOf(pairs: seq<Pairing>, now: int): seq<real> {
    if pairs == [] then []
    else
      var last := pairs[|pairs| - 1];
      WaitsOf(pairs[..|pairs| - 1], now) + [last.first.request.WaitSeconds(now), last.second.request.WaitSeconds(now)]
  }

  class Matchmaker {
    const queue: InMemoryMatchQueue
    const notifications: MatchNotificationChannel
    var orderCounter: nat
    var matchCounter: nat
    var matchesCreated: nat
    var lastQueueSize: nat
    const waitBucketCounts: array<nat>
    var waitOverflowCount: nat
    var waitSum: real
    var waitCount: nat
    /** Every wait observed and every match returned, in order. */
    ghost var waits: seq<real>
    ghost var returned: seq<Match>

    /** The queue and its order numbers. */
    ghost predicate Queued()
      reads this`orderCounter, this`lastQueueSize, queue
    {
      && queue.Valid() && Ordered(queue.contents, orderCounter)
      && lastQueueSize == |queue.contents|
    }

    /** The wait histogram. */
    ghost predicate Accounts()
      reads this`waitOverflowCount, this`waits, this`waitCount, this`waitSum, waitBucketCounts
    {
      && waitBucketCounts.Length == BUCKETS
      && (forall i :: 0 <= i < BUCKETS ==> waitBucketCounts[i] == Count(waits, InBucket(i)))
      && waitOverflowCount == Count(waits, Above(80.0))
      && waitCount == |waits| && waitSum == SumOf(waits)
    }

    twostate lemma AccountsKept()
      requires old(Accounts())
      requires unchanged(this`waitOverflowCount, this`waits, this`waitCount, this`waitSum, waitBucketCounts)
      ensures Accounts()
    {
    }

    /** Nor do enqueueing and cancelling concern the counters and the channel. */
    twostate lemma RecordsKept()
      requires old(Accounts() && Counted() && Announced())
      requires unchanged(this`waitOverflowCount, this`waits, this`waitCount, this`waitSum, waitBucketCounts)
      requires unchanged(this`matchesCreated, this`matchCounter, this`returned, notifications)
      ensures Accounts() && Counted() && Announced()
    {
    }

    /** The exported histogram: cumulative counts, their total, the sum and the count of the waits. */
    lemma Histogram(i: nat)
      requires Accounts() && i < BUCKETS
      ensures SumUpTo(waitBucketCounts[..], i) == Count(waits, AtMost(BOUNDS[i]))
      ensures SumUpTo(waitBucketCounts[..], BUCKETS - 1) + waitOverflowCount == waitCount == |waits|
    {
      assert Tallied(waitBucketCounts[..], waitOverflowCount, waits);
      CumulativeBucket(waitBucketCounts[..], waitOverflowCount, waits, i);
      BucketsCoverWaits(waitBucketCounts[..], waitOverflowCount, waits);
    }

    /** Two waits for each match, and a number for each match. */
    ghost predicate Counted()
      reads this`waitCount, this`matchesCreated, this`matchCounter, this`returned
    {
      waitCount == 2 * matchesCreated && matchesCreated == matchCounter == |returned|
    }

    /** The channel has been given exactly the matches returned, in order. */
    ghost predicate Announced()
      reads this`returned, notifications
    {
      notifications.Valid() && notifications.published == returned
    }

    ghost predicate Valid()
      reads this, queue, notifications, waitBucketCounts
    {
      Queued() && Accounts() && Counted() && Announced()
    }

    constructor ()
      ensures Valid() && queue.contents == map[] && returned == [] && waits == []
    {
      queue := new InMemoryMatchQueue();
      notifications := new MatchNotificationChannel();
      orderCounter, matchCounter, matchesCreated, lastQueueSize := 0, 0, 0, 0;
      waitBucketCounts := new nat[BUCKETS](_ => 0);
      waitOverflowCount, waitSum, waitCount := 0, 0.0, 0;
      waits, returned := [], [];
    }

    method Enqueue(request: MatchRequest)
      requires Valid()
      modifies this`orderCounter, this`lastQueueSize, queue
      ensures Valid() && orderCounter == old(orderCounter) + 1
      ensures queue.contents == old(queue.contents)[request.playerId := QueuedPlayer(request, orderCounter)]
    {
      FileRequest(request);
      RecordsKept();
    }

    method Cancel(id: string) returns (removed: bool)
      requires Valid()
      modifies this`lastQueueSize, queue
      ensures Valid() && removed == (id in old(queue.contents)) && queue.contents == old(queue.contents) - {id}
    {
      removed := DropRequest(id);
      RecordsKept();
    }

    // The queue's part of the two; nothing else in `Valid` reads what they change.

    method FileRequest(request: MatchRequest)
      requires Queued()
      modifies this`orderCounter, this`lastQueueSize, queue
      ensures Queued() && orderCounter == old(orderCounter) + 1
      ensures queue.contents == old(queue.contents)[request.playerId := QueuedPlayer(request, orderCounter)]
    {
      OneMore(queue.contents, QueuedPlayer(request, orderCounter + 1), orderCounter);
      orderCounter := orderCounter + 1;
      queue.Upsert(request, orderCounter);
      assert Ordered(queue.contents, orderCounter);
      lastQueueSize := queue.Size();
    }

    method DropRequest(id: string) returns (removed: bool)
      requires Queued()
      modifies this`lastQueueSize, queue
      ensures Queued() && removed == (id in old(queue.contents)) && queue.contents == old(queue.contents) - {id}
    {
      FewerOrdered(queue.contents, queue.contents - {id}, orderCounter);
      removed := queue.Remove(id);
      lastQueueSize := queue.Size();
    }

    /** The first bucket whose bound is not exceeded, or the overflow. */
    method ObserveWait(seconds: real)
      requires Accounts()
      modifies this`waitSum, this`waitCount, this`waitOverflowCount, this`waits, waitBucketCounts
      ensures Accounts() && waits == old(waits) + [seconds]
    {
      ghost var before := waits;
      waitSum := waitSum + seconds;
      waitCount := waitCount + 1;
      waits := waits + [seconds];
      var i := 0;
      while i < BUCKETS && seconds > BOUNDS[i]
        invariant i <= BUCKETS && (i > 0 ==> seconds > BOUNDS[i - 1])
      {
        i := i + 1;
      }
      if i < BUCKETS {
        waitBucketCounts[i] := waitBucketCounts[i] + 1;
      } else {
        waitOverflowCount := waitOverflowCount + 1;
      }
      ObservedIn(before, seconds, i);
      assert waits[..|before|] == before;
    }

    /** One matching pass; `FirstFit` of the ordering says exactly who is paired with whom. */
    method RunMatching(now: int) returns (matches: seq<Match>)
      requires Valid()
      modifies this, queue, notifications, waitBucketCounts
      ensures Valid()
      ensures PassedOver(matches, old(queue.contents), queue.contents, old(matchCounter), old(waits), waits, now)
      ensures returned == old(returned) + matches && notifications.delivered == old(notifications.delivered)
    {
      matches := MatchInOrder(now);
      label locked:
      PublishAll(matches);
      AccountsKept@locked();
    }

    /** The locked part of a pass: fetch the ordering and scan it. */
    method MatchInOrder(now: int) returns (matches: seq<Match>)
      requires Queued() && Accounts() && waitCount == 2 * matchesCreated && matchesCreated == matchCounter
      modifies this`matchCounter, this`matchesCreated, this`waitSum, this`waitCount, this`waitOverflowCount, this`waits
      modifies this`lastQueueSize, queue, waitBucketCounts
      ensures Queued() && Accounts()
      ensures waitCount == 2 * matchesCreated && matchesCreated == matchCounter == old(matchCounter) + |matches|
      ensures PassedOver(matches, old(queue.contents), queue.contents, old(matchCounter), old(waits), waits, now)
    {
      var ordered := OrderedQueue();
      matches := MatchAll(ordered, now);
      RefreshGauge();
    }

    method RefreshGauge()
      requires queue.Valid() && Ordered(queue.contents, orderCounter) && Accounts()
      modifies this`lastQueueSize
      ensures Queued() && Accounts()
    {
      lastQueueSize := queue.Size();
    }

    method OrderedQueue() returns (ordered: seq<QueuedPlayer>)
      requires queue.Valid() && DistinctOrders(queue.contents)
      ensures ordered == Ordering(queue.contents) && IsOrdering(ordered, queue.contents)
    {
      ordered := queue.FetchOrdered();
      OrderingIsOrdering(queue.contents);
      OrderingUnique(ordered, Ordering(queue.contents), queue.contents);
    }

    /** Everything that holds while the scan of a pass stands at place `i`. */
    ghost predicate Scanning(ordered: seq<QueuedPlayer>, i: nat, used: set<string>, pairs: seq<Pairing>,
                             aside: seq<QueuedPlayer>, matches: seq<Match>, now: int,
                             start: Contents, base: nat, before: seq<real>)
      reads this, queue, waitBucketCounts
    {
      && queue.Valid() && Accounts() && queue.contents == start - used
      && Scanned(ordered, i, used, pairs, aside, FitsAt(now))
      && MatchesOf(matches, pairs, base, now)
      && waits == before + WaitsOf(pairs, now)
      && waitCount == 2 * matchesCreated && matchesCreated == matchCounter == base + |matches|
    }

    /** The scan, with its removals and counters. */
    method MatchAll(ordered: seq<QueuedPlayer>, now: int) returns (matches: seq<Match>)
      requires queue.Valid() && Accounts()
      requires IsOrdering(ordered, queue.contents) && Ordered(queue.contents, orderCounter)
      requires waitCount == 2 * matchesCreated && matchesCreated == matchCounter
      modifies this`matchCounter, this`matchesCreated, this`waitSum, this`waitCount, this`waitOverflowCount, this`waits
      modifies queue, waitBucketCounts
      ensures queue.Valid() && Accounts() && Ordered(queue.contents, orderCounter)
      ensures waitCount == 2 * matchesCreated && matchesCreated == matchCounter == old(matchCounter) + |matches|
      ensures PassedAlong(matches, ordered, queue.contents, old(matchCounter), old(waits), waits, now)
    {
      OrderingFacts(ordered, queue.contents);
      ScanStarts(ordered, FitsAt(now));
      ghost var start, base, before := queue.contents, matchCounter, waits;
      matches := [];
      var used: set<string> := {};
      ghost var pairs: seq<Pairing>, aside: seq<QueuedPlayer> := [], [];
      var i := 0;
      while i < |ordered|
        invariant i <= |ordered|
        invariant Scanning(ordered, i, used, pairs, aside, matches, now, start, base, before)
      {
        matches, used, pairs, aside := Visit(ordered, i, used, now, matches, pairs, aside, start, base, before);
        i := i + 1;
      }
      ScanPasses(ordered, start, used, pairs, aside, now, orderCounter);
    }

    /** One turn of the scan. */
    method Visit(ordered: seq<QueuedPlayer>, i: nat, used: set<string>, now: int, matches: seq<Match>,
                 ghost pairs: seq<Pairing>, ghost aside: seq<QueuedPlayer>,
                 ghost start: Contents, ghost base: nat, ghost before: seq<real>)
      returns (matches': seq<Match>, used': set<string>, ghost pairs': seq<Pairing>, ghost aside': seq<QueuedPlayer>)
      requires i < |ordered| && DistinctIds(ordered) && Sorted(RatingAscends, ordered)
      requires Scanning(ordered, i, used, pairs, aside, matches, now, start, base, before)
      modifies this`matchCounter, this`matchesCreated, this`waitSum, this`waitCount, this`waitOverflowCount, this`waits
      modifies queue, waitBucketCounts
      ensures Scanning(ordered, i + 1, used', pairs', aside', matches', now, start, base, before)
    {
      matches', used', pairs', aside' := matches, used, pairs, aside;
      if IdOf(ordered[i]) in used {
        VisitUsed(ordered, i, used, pairs, aside, FitsAt(now));
        return;
      }
      var partner := FindPartner(ordered, i, used, now);
      if partner == |ordered| {
        VisitUnused(ordered, i, used, pairs, aside, FitsAt(now));
        aside' := aside + [ordered[i]];
        return;
      }
      var made := MatchPair(ordered, i, partner, used, now, pairs, aside, matches, start, base, before);
      matches' := matches + [made];
      pairs' := pairs + [Pairing(ordered[i], ordered[partner])];
      used' := used + {IdOf(ordered[i]), IdOf(ordered[partner])};
    }

    /** The turn that finds a partner. */
    method MatchPair(ordered: seq<QueuedPlayer>, i: nat, partner: nat, used: set<string>, now: int,
                     ghost pairs: seq<Pairing>, ghost aside: seq<QueuedPlayer>, ghost matches: seq<Match>,
                     ghost start: Contents, ghost base: nat, ghost before: seq<real>)
      returns (made: Match)
      requires i < partner < |ordered| && DistinctIds(ordered)
      requires Scanning(ordered, i, used, pairs, aside, matches, now, start, base, before)
      requires IdOf(ordered[i]) !in used && IdOf(ordered[partner]) !in used
      requires CanPair(ordered[i], ordered[partner], now)
      requires forall k :: i < k < partner ==> IdOf(ordered[k]) in used || !CanPair(ordered[i], ordered[k], now)
      modifies this`matchCounter, this`matchesCreated, this`waitSum, this`waitCount, this`waitOverflowCount, this`waits
      modifies queue, waitBucketCounts
      ensures Scanning(ordered, i + 1, used + {IdOf(ordered[i]), IdOf(ordered[partner])},
                       pairs + [Pairing(ordered[i], ordered[partner])], aside, matches + [made], now,
                       start, base, before)
    {
      var pair := Pairing(ordered[i], ordered[partner]);
      made := PairOff(pair, now);
      VisitPaired(ordered, i, partner, used, pairs, aside, FitsAt(now));
      RemoveMore(start, used, {IdOf(pair.first), IdOf(pair.second)});
      MatchesSnoc(matches, pairs, base, now, pair, made);
      WaitsSnoc(before, pairs, pair, now);
    }

    /** One pair: both leave the queue, a match is created, both waits are observed. */
    method PairOff(pair: Pairing, now: int) returns (made: Match)
      requires queue.Valid() && Accounts()
      modifies this`matchCounter, this`matchesCreated, this`waitSum, this`waitCount, this`waitOverflowCount, this`waits
      modifies queue, waitBucketCounts
      ensures queue.Valid() && Accounts()
      ensures queue.contents == old(queue.contents) - {IdOf(pair.first), IdOf(pair.second)}
      ensures matchCounter == old(matchCounter) + 1 && matchesCreated == old(matchesCreated) + 1
      ensures made == MatchOf(pair, matchCounter, now)
      ensures waits == old(waits) + [pair.first.request.WaitSeconds(now), pair.second.request.WaitSeconds(now)]
      ensures waitCount == old(waitCount) + 2
    {
      RemoveBoth(IdOf(pair.first), IdOf(pair.second));
      matchesCreated := matchesCreated + 1;
      matchCounter := matchCounter + 1;
      made := MatchOf(pair, matchCounter, now);
      ObserveWait(pair.first.request.WaitSeconds(now));
      ObserveWait(pair.second.request.WaitSeconds(now));
    }

    method RemoveBoth(first: string, second: string)
      requires queue.Valid()
      modifies queue
      ensures queue.Valid() && queue.contents == old(queue.contents) - {first, second}
    {
      var _ := queue.Remove(first);
      var _ := queue.Remove(second);
      assert queue.contents == old(queue.contents) - {first, second};
    }

    /** The unlocked part of a pass. */
    method PublishAll(matches: seq<Match>)
      requires Announced()
      modifies notifications, this`returned
      ensures Announced() && returned == old(returned) + matches
      ensures notifications.delivered == old(notifications.delivered)
    {
      var k := 0;
      while k < |matches|
        invariant k <= |matches| && notifications.Valid()
        invariant notifications.published == old(notifications.published) + matches[..k]
        invariant notifications.delivered == old(notifications.delivered) && returned == old(returned)
      {
        notifications.Publish(matches[k]);
        k := k + 1;
      }
      assert matches[..|matches|] == matches;
      returned := returned + matches;
    }
  }

  /** What a pass at `now` does: first fit on the list decides the matches, the queue left behind and the waits. */
  ghost predicate PassedAlong(matches: seq<Match>, ordered: seq<QueuedPlayer>, after: Contents, base: nat,
                              waitsBefore: seq<real>, waitsAfter: seq<real>, now: int)
  {
    var o := FirstFit(ordered, FitsAt(now));
    && MatchesOf(matches, o.pairs, base, now)
    && IsOrdering(o.rest, after)
    && waitsAfter == waitsBefore + WaitsOf(o.pairs, now)
  }

  ghost predicate PassedOver(matches: seq<Match>, before: Contents, after: Contents, base: nat,
                             waitsBefore: seq<real>, waitsAfter: seq<real>, now: int)
  {
    PassedAlong(matches, Ordering(before), after, base, waitsBefore, waitsAfter, now)
  }

  // ----- what the pass relies on -----

  ghost function After(pairs: seq<Pairing>, aside: seq<QueuedPlayer>, later: Outcome): Outcome {
    Outcome(pairs + later.pairs, aside + later.rest)
  }

  /**
   * The scan at place `i`: what it has paired and set aside, followed by first fit on the unused players from `i` on,
   * is first fit on the whole list; of the players visited exactly the unused ones have been set aside.
   */
  ghost predicate Scanned(ordered: seq<QueuedPlayer>, i: nat, used: set<string>,
                          pairs: seq<Pairing>, aside: seq<QueuedPlayer>, fits: Fits)
  {
    && i <= |ordered|
    && FirstFit(ordered, fits) == After(pairs, aside, FirstFit(Unused(ordered[i..], used), fits))
    && forall x :: x in aside <==> x in ordered[..i] && IdOf(x) !in used
  }

  lemma ScanStarts(ordered: seq<QueuedPlayer>, fits: Fits)
    ensures Scanned(ordered, 0, {}, [], [], fits)
  {
    UnusedByAll(ordered);
    assert ordered[0..] == ordered;
  }

  lemma ScanEnds(ordered: seq<QueuedPlayer>, used: set<string>,
                 pairs: seq<Pairing>, aside: seq<QueuedPlayer>, fits: Fits)
    requires Scanned(ordered, |ordered|, used, pairs, aside, fits)
    ensures FirstFit(ordered, fits) == Outcome(pairs, aside)
    ensures forall x :: x in aside <==> x in ordered && IdOf(x) !in used
  {
  }

  /** What a finished scan has paired and set aside is first fit, and what it has set aside is what is left queued. */
  lemma ScanPasses(ordered: seq<QueuedPlayer>, start: Contents, used: set<string>, pairs: seq<Pairing>,
                   aside: seq<QueuedPlayer>, now: int, last: nat)
    requires IsOrdering(ordered, start) && Ordered(start, last)
    requires Scanned(ordered, |ordered|, used, pairs, aside, FitsAt(now))
    ensures FirstFit(ordered, FitsAt(now)) == Outcome(pairs, aside)
    ensures IsOrdering(aside, start - used) && Ordered(start - used, last)
  {
    ScanEnds(ordered, used, pairs, aside, FitsAt(now));
    LeftInQueue(ordered, start, used, aside, FitsAt(now));
    FewerOrdered(start, start - used, last);
  }

  lemma VisitUsed(ordered: seq<QueuedPlayer>, i: nat, used: set<string>,
                  pairs: seq<Pairing>, aside: seq<QueuedPlayer>, fits: Fits)
    requires i < |ordered| && Scanned(ordered, i, used, pairs, aside, fits) && IdOf(ordered[i]) in used
    ensures Scanned(ordered, i + 1, used, pairs, aside, fits)
  {
  }

  lemma VisitUnused(ordered: seq<QueuedPlayer>, i: nat, used: set<string>,
                    pairs: seq<Pairing>, aside: seq<QueuedPlayer>, fits: Fits)
    requires i < |ordered| && Scanned(ordered, i, used, pairs, aside, fits) && IdOf(ordered[i]) !in used
    requires forall k :: i < k < |ordered| ==> IdOf(ordered[k]) in used || !fits(ordered[i], ordered[k])
    ensures Scanned(ordered, i + 1, used, pairs, aside + [ordered[i]], fits)
  {
    SetAside(ordered, i, used, fits);
    var o := FirstFit(Unused(ordered[i + 1..], used), fits);
    assert aside + ([ordered[i]] + o.rest) == aside + [ordered[i]] + o.rest;
    assert ordered[..i + 1] == ordered[..i] + [ordered[i]];
  }

  lemma VisitPaired(ordered: seq<QueuedPlayer>, i: nat, j: nat, used: set<string>,
                    pairs: seq<Pairing>, aside: seq<QueuedPlayer>, fits: Fits)
    requires i < j < |ordered| && DistinctIds(ordered) && Scanned(ordered, i, used, pairs, aside, fits)
    requires IdOf(ordered[i]) !in used && IdOf(ordered[j]) !in used && fits(ordered[i], ordered[j])
    requires forall k :: i < k < j ==> IdOf(ordered[k]) in used || !fits(ordered[i], ordered[k])
    ensures Scanned(ordered, i + 1, used + {IdOf(ordered[i]), IdOf(ordered[j])},
                    pairs + [Pairing(ordered[i], ordered[j])], aside, fits)
  {
    var used', pair := used + {IdOf(ordered[i]), IdOf(ordered[j])}, Pairing(ordered[i], ordered[j]);
    PairUp(ordered, i, j, used, fits);
    var o := FirstFit(Unused(ordered[i + 1..], used'), fits);
    assert pairs + ([pair] + o.pairs) == pairs + [pair] + o.pairs;
    StrangersBefore(ordered, i, j, used, aside);
  }

  lemma StrangersBefore(ordered: seq<QueuedPlayer>, i: nat, j: nat, used: set<string>, aside: seq<QueuedPlayer>)
    requires i < j < |ordered| && DistinctIds(ordered)
    requires forall x :: x in aside <==> x in ordered[..i] && IdOf(x) !in used
    ensures forall x :: x in aside <==> x in ordered[..i + 1] && IdOf(x) !in used + {IdOf(ordered[i]), IdOf(ordered[j])}
  {
  }

  lemma RemoveMore(c: Contents, used: set<string>, more: set<string>)
    ensures c - used - more == c - (used + more)
  {
  }

  lemma MatchesSnoc(matches: seq<Match>, pairs: seq<Pairing>, base: nat, now: int, pair: Pairing, made: Match)
    requires MatchesOf(matches, pairs, base, now) && made == MatchOf(pair, base + |matches| + 1, now)
    ensures MatchesOf(matches + [made], pairs + [pair], base, now)
  {
  }

  lemma WaitsSnoc(waits: seq<real>, pairs: seq<Pairing>, pair: Pairing, now: int)
    ensures waits + WaitsOf(pairs + [pair], now)
         == waits + WaitsOf(pairs, now) + [pair.first.request.WaitSeconds(now), pair.second.request.WaitSeconds(now)]
  {
  }

  lemma OrderingFacts(ordered: seq<QueuedPlayer>, c: Contents)
    requires IsOrdering(ordered, c)
    ensures DistinctIds(ordered) && Sorted(RatingAscends, ordered)
  {
  }

  /** The wait goes to the first bucket that takes it. */
  lemma ObservedIn(waits: seq<real>, seconds: real, i: nat)
    requires i <= BUCKETS && (i > 0 ==> seconds > BOUNDS[i - 1]) && (i < BUCKETS ==> seconds <= BOUNDS[i])
    ensures forall k :: 0 <= k < BUCKETS ==>
      Count(waits + [seconds], InBucket(k)) == Count(waits, InBucket(k)) + (if k == i then 1 else 0)
    ensures Count(waits + [seconds], Above(80.0)) == Count(waits, Above(80.0)) + (if i == BUCKETS then 1 else 0)
  {
  }

  lemma LeftInQueue(ordered: seq<QueuedPlayer>, c: Contents, used: set<string>, aside: seq<QueuedPlayer>, fits: Fits)
    requires IsOrdering(ordered, c) && forall x :: x in aside <==> x in ordered && IdOf(x) !in used
    requires aside == FirstFit(ordered, fits).rest
    ensures IsOrdering(aside, c - used)
  {
    RestSorted(ordered, QueueBefore, fits);
  }
}
