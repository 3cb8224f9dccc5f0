/** First-fit pairing of an ordered list: the plain recursive form and what it guarantees. */
module Greedy {
  import opened Sorting
  import opened MatchRequests

  datatype QueuedPlayer = QueuedPlayer(request: MatchRequest, order: nat)

  datatype Pairing = Pairing(first: QueuedPlayer, second: QueuedPlayer)

  datatype Outcome = Outcome(pairs: seq<Pairing>, rest: seq<QueuedPlayer>)

  predicate CanPair(a: QueuedPlayer, b: QueuedPlayer, now: int) {
    Acceptable(a.request, b.request, now)
  }

  type Fits = (QueuedPlayer, QueuedPlayer) -> bool

  /** Who can be paired with whom at one moment. */
  function FitsAt(now: int): Fits {
    (a: QueuedPlayer, b: QueuedPlayer) => CanPair(a, b, now)
  }

  /** `x` stands in no way behind `y`: same rating and region, enqueued no later. */
  ghost predicate NoLaterThan(x: QueuedPlayer, y: QueuedPlayer) {
    x.request.elo == y.request.elo && x.request.region == y.request.region
    && x.request.enqueuedAt <= y.request.enqueuedAt
  }

  /** Fitting is mutual, and whoever fits `y` fits everybody who stands in no way behind `y`. */
  ghost predicate Fair(fits: Fits) {
    && (forall a, b :: fits(a, b) <==> fits(b, a))
    && (forall x, y, z :: NoLaterThan(x, y) && fits(y, z) ==> fits(x, z))
  }

  lemma FitsAtIsFair(now: int)
    ensures Fair(FitsAt(now))
  {
    forall a: QueuedPlayer, b: QueuedPlayer ensures CanPair(a, b, now) <==> CanPair(b, a, now) {
      AcceptableIsSymmetric(a.request, b.request, now);
    }
    forall x: QueuedPlayer, y: QueuedPlayer, z: QueuedPlayer | NoLaterThan(x, y) && CanPair(y, z, now)
      ensures CanPair(x, z, now)
    {
      EarlierIsPreferred(x.request, y.request, z.request, now);
    }
  }

  /** The place of the first acceptable partner, or the length when there is none. */
  ghost function FirstPartner(a: QueuedPlayer, rest: seq<QueuedPlayer>, fits: Fits): (p: nat)
    ensures p <= |rest|
  {
    if rest == [] || fits(a, rest[0]) then 0 else 1 + FirstPartner(a, rest[1..], fits)
  }

  lemma {:induction false} PartnerIsFirst(a: QueuedPlayer, rest: seq<QueuedPlayer>, fits: Fits)
    ensures var p := FirstPartner(a, rest, fits);
      && (p < |rest| ==> fits(a, rest[p]))
      && forall k :: 0 <= k < p ==> !fits(a, rest[k])
  {
    if rest != [] && !fits(a, rest[0]) {
      PartnerIsFirst(a, rest[1..], fits);
    }
  }

  lemma {:induction false} NoPartner(a: QueuedPlayer, rest: seq<QueuedPlayer>, fits: Fits)
    requires forall k :: 0 <= k < |rest| ==> !fits(a, rest[k])
    ensures FirstPartner(a, rest, fits) == |rest|
  {
    if rest != [] {
      NoPartner(a, rest[1..], fits);
    }
  }

  /** The list with the element at `p` taken out. */
  ghost function Without(q: seq<QueuedPlayer>, p: nat): (r: seq<QueuedPlayer>)
    requires p < |q|
    ensures |r| == |q| - 1
  {
    q[..p] + q[p + 1..]
  }

  /** Take the first player; pair it with the first acceptable other and drop both, or set it aside. No pruning. */
  ghost function FirstFit(q: seq<QueuedPlayer>, fits: Fits): Outcome
    decreases |q|
  {
    if q == [] then Outcome([], [])
    else
      var a, others := q[0], q[1..];
      var p := FirstPartner(a, others, fits);
      if p == |others| then
        var o := FirstFit(others, fits);
        Outcome(o.pairs, [a] + o.rest)
      else
        var o := FirstFit(Without(others, p), fits);
        Outcome([Pairing(a, others[p])] + o.pairs, o.rest)
  }

  ghost function Members(pairs: seq<Pairing>): multiset<QueuedPlayer> {
    if pairs == [] then multiset{} else multiset{pairs[0].first, pairs[0].second} + Members(pairs[1..])
  }

  lemma MembersCons(pair: Pairing, pairs: seq<Pairing>)
    ensures Members([pair] + pairs) == multiset{pair.first, pair.second} + Members(pairs)
  {
  }

  lemma WithoutOne(q: seq<QueuedPlayer>, p: nat)
    requires p < |q|
    ensures multiset(q) == multiset(Without(q, p)) + multiset{q[p]}
  {
    assert q == q[..p] + [q[p]] + q[p + 1..];
  }

  lemma WithoutMembers(q: seq<QueuedPlayer>, p: nat)
    requires p < |q|
    ensures forall x :: x in q <==> x in Without(q, p) || x == q[p]
  {
  }

  lemma WithoutAt(q: seq<QueuedPlayer>, p: nat, i: nat)
    requires p < |q| && i < |q| && i != p
    ensures Without(q, p)[if i < p then i else i - 1] == q[i]
  {
  }

  lemma WithoutSorted(q: seq<QueuedPlayer>, p: nat, less: (QueuedPlayer, QueuedPlayer) -> bool)
    requires p < |q| && Sorted(less, q)
    ensures Sorted(less, Without(q, p))
  {
  }

  /** The paired players and the rest partition the list. */
  lemma {:induction false} Partition(q: seq<QueuedPlayer>, fits: Fits)
    ensures multiset(q) == Members(FirstFit(q, fits).pairs) + multiset(FirstFit(q, fits).rest)
    decreases |q|
  {
    if q != [] {
      var a, others := q[0], q[1..];
      var p := FirstPartner(a, others, fits);
      assert q == [a] + others;
      MultisetCons(a, others);
      if p == |others| {
        Partition(others, fits);
        MultisetCons(a, FirstFit(others, fits).rest);
      } else {
        Partition(Without(others, p), fits);
        WithoutOne(others, p);
        MembersCons(Pairing(a, others[p]), FirstFit(Without(others, p), fits).pairs);
      }
    }
  }

  lemma MultisetCons(a: QueuedPlayer, q: seq<QueuedPlayer>)
    ensures multiset([a] + q) == multiset{a} + multiset(q)
  {
  }

  lemma PartitionSets(q: seq<QueuedPlayer>, fits: Fits)
    ensures forall x :: x in q <==> x in Members(FirstFit(q, fits).pairs) || x in FirstFit(q, fits).rest
  {
    Partition(q, fits);
    assert forall x :: x in q <==> x in multiset(q);
    var rest := FirstFit(q, fits).rest;
    assert forall x :: x in rest <==> x in multiset(rest);
  }

  /** Every pair is acceptable, and the first of it stands before the second. */
  lemma {:induction false} PairsAcceptable(q: seq<QueuedPlayer>, fits: Fits)
    ensures forall pair :: pair in FirstFit(q, fits).pairs ==> fits(pair.first, pair.second)
    decreases |q|
  {
    if q != [] {
      var p := FirstPartner(q[0], q[1..], fits);
      PartnerIsFirst(q[0], q[1..], fits);
      PairsAcceptable(if p == |q| - 1 then q[1..] else Without(q[1..], p), fits);
    }
  }

  lemma {:induction false} PairsAreMembers(pairs: seq<Pairing>)
    ensures forall pair :: pair in pairs ==> pair.first in Members(pairs) && pair.second in Members(pairs)
  {
    if pairs != [] {
      PairsAreMembers(pairs[1..]);
      assert forall pair :: pair in pairs <==> pair == pairs[0] || pair in pairs[1..];
    }
  }

  ghost predicate NonePairable(q: seq<QueuedPlayer>, fits: Fits) {
    forall i, j :: 0 <= i < j < |q| ==> !fits(q[i], q[j])
  }

  /** Maximality: no two players left over could have been paired. */
  lemma {:induction false} Maximal(q: seq<QueuedPlayer>, fits: Fits)
    ensures NonePairable(FirstFit(q, fits).rest, fits)
    decreases |q|
  {
    if q != [] {
      var a, others := q[0], q[1..];
      var p := FirstPartner(a, others, fits);
      if p == |others| {
        Maximal(others, fits);
        PartitionSets(others, fits);
        PartnerIsFirst(a, others, fits);
        var rest := FirstFit(others, fits).rest;
        forall j | 0 <= j < |rest| ensures !fits(a, rest[j]) {
          assert rest[j] in others;
        }
      } else {
        Maximal(Without(others, p), fits);
      }
    }
  }

  /** A list in which nobody can be paired is left alone. */
  lemma {:induction false} NothingToDo(q: seq<QueuedPlayer>, fits: Fits)
    requires NonePairable(q, fits)
    ensures FirstFit(q, fits) == Outcome([], q)
  {
    if q != [] {
      var a, others := q[0], q[1..];
      assert forall j :: 0 <= j < |others| ==> others[j] == q[j + 1];
      NoPartner(a, others, fits);
      NothingToDo(others, fits);
    }
  }

  /** A second pass at the same time changes nothing. */
  lemma Idempotent(q: seq<QueuedPlayer>, fits: Fits)
    ensures FirstFit(FirstFit(q, fits).rest, fits) == Outcome([], FirstFit(q, fits).rest)
  {
    Maximal(q, fits);
    NothingToDo(FirstFit(q, fits).rest, fits);
  }

  /** What is left stays in order. */
  lemma {:induction false} RestSorted(q: seq<QueuedPlayer>, less: (QueuedPlayer, QueuedPlayer) -> bool, fits: Fits)
    requires Sorted(less, q)
    ensures Sorted(less, FirstFit(q, fits).rest)
    decreases |q|
  {
    if q != [] {
      var a, others := q[0], q[1..];
      var p := FirstPartner(a, others, fits);
      if p == |others| {
        RestSorted(others, less, fits);
        PartitionSets(others, fits);
        HeadFirst(q, FirstFit(others, fits).rest, less);
      } else {
        WithoutSorted(others, p, less);
        RestSorted(Without(others, p), less, fits);
      }
    }
  }

  lemma HeadFirst(q: seq<QueuedPlayer>, rest: seq<QueuedPlayer>, less: (QueuedPlayer, QueuedPlayer) -> bool)
    requires q != [] && Sorted(less, q) && Sorted(less, rest)
    requires forall x :: x in rest ==> x in q[1..]
    ensures Sorted(less, [q[0]] + rest)
  {
    forall k | 0 <= k < |rest| ensures less(q[0], rest[k]) {
      assert rest[k] in q[1..];
    }
  }

  ghost predicate NoRepeats(q: seq<QueuedPlayer>) {
    forall i, j :: 0 <= i < j < |q| ==> q[i] != q[j]
  }

  /** If the head stays unpaired, so does every later player with the same rating and region who came no earlier. */
  lemma UnpairedHead(q: seq<QueuedPlayer>, y: QueuedPlayer, fits: Fits)
    requires Fair(fits) && q != [] && y in q[1..] && NoLaterThan(q[0], y)
    requires forall z :: z in q[1..] ==> !fits(q[0], z)
    ensures y in FirstFit(q[1..], fits).rest
  {
    var o := FirstFit(q[1..], fits);
    PartitionSets(q[1..], fits);
    PairsAcceptable(q[1..], fits);
    PairsAreMembers(o.pairs);
    if y !in o.rest {
      var z := PartnerOf(o.pairs, y, fits);
      assert false;
    }
  }

  lemma {:induction false} PartnerOf(pairs: seq<Pairing>, y: QueuedPlayer, fits: Fits) returns (z: QueuedPlayer)
    requires Fair(fits) && y in Members(pairs)
    requires forall pair :: pair in pairs ==> fits(pair.first, pair.second)
    ensures fits(y, z) && z in Members(pairs)
  {
    assert pairs[0] in pairs;
    if y == pairs[0].first {
      z := pairs[0].second;
    } else if y == pairs[0].second {
      z := pairs[0].first;
    } else {
      assert forall pair :: pair in pairs[1..] ==> pair in pairs;
      z := PartnerOf(pairs[1..], y, fits);
    }
  }

  lemma NoneAcceptable(a: QueuedPlayer, others: seq<QueuedPlayer>, fits: Fits)
    requires FirstPartner(a, others, fits) == |others|
    ensures forall z :: z in others ==> !fits(a, z)
  {
  }

  /** When the head takes a partner, it does not take `y` while `x` is still there. */
  lemma HeadPrefersEarlier(q: seq<QueuedPlayer>, i: nat, j: nat, fits: Fits)
    requires Fair(fits) && 0 < i < j < |q| && NoLaterThan(q[i], q[j])
    ensures FirstPartner(q[0], q[1..], fits) != j - 1
  {
    var others := q[1..];
    PartnerIsFirst(q[0], others, fits);
    assert others[i - 1] == q[i] && others[j - 1] == q[j];
    if fits(q[0], q[j]) {
      assert fits(q[0], others[i - 1]);
    }
  }

  /**
   * No overtaking: whoever stands before `y` with the same rating and region, enqueued no later, is not passed over
   * for `y`.
   */
  lemma {:induction false} NoOvertaking(q: seq<QueuedPlayer>, i: nat, j: nat, fits: Fits)
    requires Fair(fits) && i < j < |q| && NoRepeats(q) && NoLaterThan(q[i], q[j])
    ensures q[i] in FirstFit(q, fits).rest ==> q[j] in FirstFit(q, fits).rest
    decreases |q|
  {
    var a, others := q[0], q[1..];
    var p := FirstPartner(a, others, fits);
    if p == |others| {
      if i == 0 {
        NoneAcceptable(a, others, fits);
        assert q[j] == others[j - 1];
        UnpairedHead(q, q[j], fits);
      } else {
        NoOvertaking(others, i - 1, j - 1, fits);
      }
    } else {
      OvertakingNeedsBoth(q, i, j, fits, p);
      if i != 0 && i - 1 != p {
        HeadPrefersEarlier(q, i, j, fits);
        WithoutAt(others, p, i - 1);
        WithoutAt(others, p, j - 1);
        NoRepeatsWithout(others, p);
        NoOvertaking(Without(others, p), if i - 1 < p then i - 1 else i - 2, if j - 1 < p then j - 1 else j - 2, fits);
      }
    }
  }

  lemma NoRepeatsWithout(q: seq<QueuedPlayer>, p: nat)
    requires NoRepeats(q) && p < |q|
    ensures NoRepeats(Without(q, p)) && q[p] !in Without(q, p)
  {
  }

  /** Once paired, the head and its partner are gone. */
  lemma OvertakingNeedsBoth(q: seq<QueuedPlayer>, i: nat, j: nat, fits: Fits, p: nat)
    requires i < j < |q| && NoRepeats(q) && p == FirstPartner(q[0], q[1..], fits) < |q| - 1
    ensures i == 0 || i - 1 == p ==> q[i] !in FirstFit(q, fits).rest
  {
    var left := Without(q[1..], p);
    PartitionSets(left, fits);
    NoRepeatsWithout(q[1..], p);
    WithoutMembers(q[1..], p);
  }
}
