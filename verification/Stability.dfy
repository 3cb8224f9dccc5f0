/** No two players a pass passes over would both rather have played each other. */
module Stability {
  import opened Sorting
  import opened MatchRequests
  import opened Greedy
  import opened MatchQueues
  import opened Notifications
  import opened Matchmakers
  import opened MatchingGuarantees
  import opened MatchTerms

  /** The lower rating, and of equal ratings whoever was enqueued first. */
  predicate Ahead(a: QueuedPlayer, b: QueuedPlayer) {
    a.request.elo < b.request.elo || (a.request.elo == b.request.elo && a.order < b.order)
  }

  /** `x` is paired, with `y` or with somebody ahead of `y`. */
  ghost predicate PairedTo(pair: Pairing, x: QueuedPlayer, y: QueuedPlayer) {
    || (pair.first == x && (pair.second == y || Ahead(pair.second, y)))
    || (pair.second == x && (pair.first == y || Ahead(pair.first, y)))
  }

  ghost predicate Satisfied(pairs: seq<Pairing>, x: QueuedPlayer, y: QueuedPlayer) {
    exists k :: 0 <= k < |pairs| && PairedTo(pairs[k], x, y)
  }

  lemma SatisfiedCons(pair: Pairing, pairs: seq<Pairing>, x: QueuedPlayer, y: QueuedPlayer)
    requires Satisfied(pairs, x, y)
    ensures Satisfied([pair] + pairs, x, y)
  {
    var k :| 0 <= k < |pairs| && PairedTo(pairs[k], x, y);
    assert ([pair] + pairs)[k + 1] == pairs[k];
  }

  /** The first of the list has the first who fits. */
  lemma HeadHasBest(q: seq<QueuedPlayer>, y: QueuedPlayer, fits: Fits)
    requires q != [] && Sorted(Ahead, q) && y in q[1..] && fits(q[0], y)
    ensures Satisfied(FirstFit(q, fits).pairs, q[0], y)
  {
    var others := q[1..];
    PartnerIsFirst(q[0], others, fits);
    var p := FirstPartner(q[0], others, fits);
    var j :| 0 <= j < |others| && others[j] == y;
    assert p <= j && (p == j || Ahead(others[p], y));
    assert PairedTo(FirstFit(q, fits).pairs[0], q[0], y);
  }

  lemma TailSorted(q: seq<QueuedPlayer>)
    requires q != [] && Sorted(Ahead, q)
    ensures Sorted(Ahead, q[1..]) && forall x :: x in q[1..] ==> Ahead(q[0], x)
  {
  }

  /** Of any two in the list who fit one has the other, or somebody ahead of the other. */
  lemma {:induction false} Stable(q: seq<QueuedPlayer>, x: QueuedPlayer, y: QueuedPlayer, fits: Fits)
    requires Sorted(Ahead, q) && x in q && y in q && Ahead(x, y) && fits(x, y)
    ensures var pairs := FirstFit(q, fits).pairs; Satisfied(pairs, x, y) || Satisfied(pairs, y, x)
    decreases |q|
  {
    var a, others := q[0], q[1..];
    var p := FirstPartner(a, others, fits);
    TailSorted(q);
    if x == a {
      HeadHasBest(q, y, fits);
    } else if p == |others| {
      Stable(others, x, y, fits);
    } else {
      var head, later := Pairing(a, others[p]), FirstFit(Without(others, p), fits).pairs;
      assert FirstFit(q, fits).pairs == [head] + later;
      if x == others[p] || y == others[p] {
        assert PairedTo(([head] + later)[0], others[p], if x == others[p] then y else x);
      } else {
        WithoutMembers(others, p);
        WithoutSorted(others, p, Ahead);
        Stable(Without(others, p), x, y, fits);
        if Satisfied(later, x, y) {
          SatisfiedCons(head, later, x, y);
        } else {
          SatisfiedCons(head, later, y, x);
        }
      }
    }
  }

  // ----- and first fit is the only way -----

  ghost predicate Apart(a: Pairing, b: Pairing) {
    a.first != b.first && a.first != b.second && a.second != b.first && a.second != b.second
  }

  ghost predicate FitPair(m: Pairing, q: seq<QueuedPlayer>, fits: Fits) {
    m.first in q && m.second in q && Ahead(m.first, m.second) && fits(m.first, m.second)
  }

  /** One of the two has the other, or somebody ahead of the other. */
  ghost predicate Decided(pairs: set<Pairing>, x: QueuedPlayer, y: QueuedPlayer) {
    exists m :: m in pairs && (PairedTo(m, x, y) || PairedTo(m, y, x))
  }

  /** Pairs of the list who fit, nobody in two, and any two who fit decided. */
  ghost predicate IsStable(pairs: set<Pairing>, q: seq<QueuedPlayer>, fits: Fits) {
    && (forall m :: m in pairs ==> FitPair(m, q, fits))
    && (forall m, n :: m in pairs && n in pairs && m != n ==> Apart(m, n))
    && (forall x, y :: x in q && y in q && Ahead(x, y) && fits(x, y) ==> Decided(pairs, x, y))
  }

  /** The head of the list is paired, if at all, with nobody before the first who fits. */
  lemma HeadPairs(m: Pairing, q: seq<QueuedPlayer>, fits: Fits)
    requires q != [] && Sorted(Ahead, q) && FitPair(m, q, fits)
    ensures m.second != q[0]
    ensures m.first == q[0] ==>
      var p := FirstPartner(q[0], q[1..], fits); p < |q[1..]| && !Ahead(m.second, q[1..][p])
  {
    var others := q[1..];
    TailSorted(q);
    PartnerIsFirst(q[0], others, fits);
    if m.first == q[0] {
      var j :| 0 <= j < |others| && others[j] == m.second;
      assert !Ahead(others[j], others[FirstPartner(q[0], others, fits)]);
    }
  }

  /** In a stable pairing the head has the first who fits it, if anybody does. */
  lemma HeadPaired(pairs: set<Pairing>, q: seq<QueuedPlayer>, fits: Fits)
    requires q != [] && Sorted(Ahead, q) && IsStable(pairs, q, fits)
    ensures var p := FirstPartner(q[0], q[1..], fits);
      if p == |q[1..]| then forall m :: m in pairs ==> m.first != q[0] && m.second != q[0]
      else Pairing(q[0], q[1..][p]) in pairs
  {
    var a, others := q[0], q[1..];
    var p := FirstPartner(a, others, fits);
    forall m | m in pairs ensures m.second != a && (m.first == a ==> p < |others| && !Ahead(m.second, others[p])) {
      HeadPairs(m, q, fits);
    }
    if p < |others| {
      PartnerIsFirst(a, others, fits);
      TailSorted(q);
      assert Decided(pairs, a, others[p]);
      var m :| m in pairs && (PairedTo(m, a, others[p]) || PairedTo(m, others[p], a));
      assert FitPair(m, q, fits);
      assert m == Pairing(a, others[p]);
    }
  }

  lemma StillDecided(pairs: set<Pairing>, head: Pairing, x: QueuedPlayer, y: QueuedPlayer)
    requires Decided(pairs, x, y)
    requires x != head.first && x != head.second && y != head.first && y != head.second
    ensures Decided(pairs - {head}, x, y)
  {
    var m :| m in pairs && (PairedTo(m, x, y) || PairedTo(m, y, x));
    assert m in pairs - {head};
  }

  lemma StableRest(pairs: set<Pairing>, head: Pairing, q: seq<QueuedPlayer>, rest: seq<QueuedPlayer>, fits: Fits)
    requires IsStable(pairs, q, fits) && head in pairs
    requires forall x :: x in rest <==> x in q && x != head.first && x != head.second
    ensures IsStable(pairs - {head}, rest, fits)
  {
    forall m | m in pairs - {head} ensures FitPair(m, rest, fits) {
      assert FitPair(m, q, fits) && Apart(m, head);
    }
    forall x, y | x in rest && y in rest && Ahead(x, y) && fits(x, y) ensures Decided(pairs - {head}, x, y) {
      StillDecided(pairs, head, x, y);
    }
  }

  lemma RestOfPaired(q: seq<QueuedPlayer>, p: nat)
    requires q != [] && p < |q[1..]| && Sorted(Ahead, q)
    ensures Sorted(Ahead, Without(q[1..], p))
    ensures forall x :: x in Without(q[1..], p) <==> x in q && x != q[0] && x != q[1..][p]
  {
    var others := q[1..];
    WithoutSorted(others, p, Ahead);
    WithoutMembers(others, p);
    TailSorted(q);
    assert forall x :: x in q <==> x == q[0] || x in others;
    assert others[p] !in Without(others, p);
  }

  /** The pairs of first fit are the only stable pairing there is. */
  lemma {:induction false} OnlyStablePairing(pairs: set<Pairing>, q: seq<QueuedPlayer>, fits: Fits)
    requires Sorted(Ahead, q) && IsStable(pairs, q, fits)
    ensures forall m :: m in pairs <==> m in FirstFit(q, fits).pairs
    decreases |q|
  {
    if q != [] {
      var a, others := q[0], q[1..];
      var p := FirstPartner(a, others, fits);
      HeadPaired(pairs, q, fits);
      TailSorted(q);
      if p == |others| {
        assert forall x :: x in others ==> x in q;
        assert IsStable(pairs, others, fits);
        OnlyStablePairing(pairs, others, fits);
      } else {
        var head, rest := Pairing(a, others[p]), Without(others, p);
        RestOfPaired(q, p);
        StableRest(pairs, head, q, rest, fits);
        OnlyStablePairing(pairs - {head}, rest, fits);
        assert FirstFit(q, fits).pairs == [head] + FirstFit(rest, fits).pairs;
      }
    }
  }

  // ----- the matches of a pass -----

  /** `x` plays in the match, with `y` or with somebody ahead of `y`. */
  ghost predicate PlaysWith(m: Match, before: Contents, x: string, y: string)
    requires y in before
  {
    && |m.players| == 2
    && exists i, z :: 0 <= i < 2 && m.players[i] == x && m.players[1 - i] == z
         && z in before && (z == y || Ahead(before[z], before[y]))
  }

  ghost predicate Content(p: Pass, x: string, y: string)
    requires y in p.before
  {
    exists m :: m in p.matches && PlaysWith(m, p.before, x, y)
  }

  lemma PairPlays(pair: Pairing, number: nat, now: int, before: Contents, x: string, y: string)
    requires x in before && y in before && IdOf(before[x]) == x && IdOf(before[y]) == y
    requires Queued(pair.first, before) && Queued(pair.second, before) && PairedTo(pair, before[x], before[y])
    ensures PlaysWith(MatchOf(pair, number, now), before, x, y)
  {
    var m := MatchOf(pair, number, now);
    if pair.first == before[x] && (pair.second == before[y] || Ahead(pair.second, before[y])) {
      assert m.players[0] == x && m.players[1 - 0] == IdOf(pair.second);
    } else {
      assert m.players[1] == x && m.players[1 - 1] == IdOf(pair.first);
    }
  }

  lemma SatisfiedPlays(p: Pass, pairs: seq<Pairing>, x: string, y: string)
    requires MatchesOf(p.matches, pairs, p.base, p.now) && FairPairs(pairs, p.before, p.now)
    requires x in p.before && y in p.before && IdOf(p.before[x]) == x && IdOf(p.before[y]) == y
    requires Satisfied(pairs, p.before[x], p.before[y])
    ensures Content(p, x, y)
  {
    var k :| 0 <= k < |pairs| && PairedTo(pairs[k], p.before[x], p.before[y]);
    PairPlays(pairs[k], p.base + k + 1, p.now, p.before, x, y);
    assert MatchOf(pairs[k], p.base + k + 1, p.now) in p.matches;
  }

  lemma OrderingIsAhead(c: Contents)
    requires DistinctOrders(c)
    ensures Sorted(Ahead, Ordering(c)) && forall id :: id in c ==> c[id] in Ordering(c)
  {
    OrderingIsOrdering(c);
    assert forall a, b :: QueueBefore(a, b) ==> Ahead(a, b);
  }

  /**
   * Stability: of any two players queued before a pass who are welcome to each other, one ends up in a match with the
   * other or with somebody ahead of the other. So nobody is passed over for a worse-placed partner, matched or not.
   */
  lemma NoBlockingPair(p: Pass, x: string, y: string)
    requires Ran(p) && x in p.before && y in p.before && x != y
    requires Welcome(p.before[x].request, p.before[y].request, p.now)
    ensures Content(p, x, y) || Content(p, y, x)
  {
    var q, a, b := Ordering(p.before), p.before[x], p.before[y];
    OrderingIsAhead(p.before);
    AcceptableIsWelcome(a.request, b.request, p.now);
    AcceptableIsSymmetric(a.request, b.request, p.now);
    var pairs := PairsAreFair(p);
    if Ahead(a, b) {
      Stable(q, a, b, FitsAt(p.now));
    } else {
      Stable(q, b, a, FitsAt(p.now));
    }
    if Satisfied(pairs, a, b) {
      SatisfiedPlays(p, pairs, x, y);
    } else {
      SatisfiedPlays(p, pairs, y, x);
    }
  }
}
