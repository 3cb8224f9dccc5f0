/** The index scan with its set of used players and its early break finds what plain first fit finds. */
module PrunedScan {
  import opened Sorting
  import opened MatchRequests
  import opened Greedy
  import opened MatchQueues

  /** The players of the list not used yet. */
  ghost function Unused(q: seq<QueuedPlayer>, used: set<string>): seq<QueuedPlayer> {
    if q == [] then []
    else if IdOf(q[0]) in used then Unused(q[1..], used)
    else [q[0]] + Unused(q[1..], used)
  }

  lemma {:induction false} UnusedByAll(q: seq<QueuedPlayer>)
    ensures Unused(q, {}) == q
  {
    if q != [] {
      UnusedByAll(q[1..]);
    }
  }

  /** Using somebody who is not in the list changes nothing. */
  lemma {:induction false} UseStranger(q: seq<QueuedPlayer>, used: set<string>, id: string)
    requires forall x :: x in q ==> IdOf(x) != id
    ensures Unused(q, used + {id}) == Unused(q, used)
  {
    if q != [] {
      assert q[0] in q;
      assert forall x :: x in q[1..] ==> x in q;
      UseStranger(q[1..], used, id);
    }
  }

  lemma {:induction false} NobodyFits(a: QueuedPlayer, q: seq<QueuedPlayer>, used: set<string>, fits: Fits)
    requires forall k :: 0 <= k < |q| ==> IdOf(q[k]) in used || !fits(a, q[k])
    ensures FirstPartner(a, Unused(q, used), fits) == |Unused(q, used)|
  {
    if q != [] {
      NobodyFits(a, q[1..], used, fits);
      assert ([q[0]] + Unused(q[1..], used))[1..] == Unused(q[1..], used);
    }
  }

  /** The first unused acceptable player of the list is first fit's partner, and using him takes him out. */
  lemma {:induction false} FirstFits(a: QueuedPlayer, q: seq<QueuedPlayer>, used: set<string>, j: nat, fits: Fits)
    requires DistinctIds(q) && j < |q| && IdOf(q[j]) !in used && fits(a, q[j])
    requires forall k :: 0 <= k < j ==> IdOf(q[k]) in used || !fits(a, q[k])
    ensures var u, p := Unused(q, used), FirstPartner(a, Unused(q, used), fits);
      p < |u| && u[p] == q[j] && Without(u, p) == Unused(q, used + {IdOf(q[j])})
  {
    if j == 0 {
      PartnerCons(a, q[0], Unused(q[1..], used), fits);
      UseStranger(q[1..], used, IdOf(q[0]));
    } else {
      FirstFits(a, q[1..], used, j - 1, fits);
      if IdOf(q[0]) !in used {
        PartnerCons(a, q[0], Unused(q[1..], used), fits);
      }
    }
  }

  lemma PartnerCons(a: QueuedPlayer, x: QueuedPlayer, u: seq<QueuedPlayer>, fits: Fits)
    ensures fits(a, x) ==> FirstPartner(a, [x] + u, fits) == 0 && Without([x] + u, 0) == u
    ensures !fits(a, x) ==>
      var p := FirstPartner(a, u, fits);
      FirstPartner(a, [x] + u, fits) == p + 1 && (p < |u| ==> Without([x] + u, p + 1) == [x] + Without(u, p))
  {
    assert ([x] + u)[1..] == u;
    var p := FirstPartner(a, u, fits);
    if p < |u| {
      WithoutCons(x, u, p);
    }
  }

  lemma WithoutCons(x: QueuedPlayer, u: seq<QueuedPlayer>, p: nat)
    requires p < |u|
    ensures Without([x] + u, p + 1) == [x] + Without(u, p)
  {
  }

  predicate RatingAscends(a: QueuedPlayer, b: QueuedPlayer) {
    a.request.elo <= b.request.elo
  }

  /**
   * The inner loop: the first unused acceptable player after `i`, or the length. It stops early once ratings are out of
   * `i`'s reach, which passes over nobody: later ones are further still.
   */
  method FindPartner(ordered: seq<QueuedPlayer>, i: nat, used: set<string>, now: int) returns (partner: nat)
    requires i < |ordered| && Sorted(RatingAscends, ordered)
    ensures i < partner <= |ordered|
    ensures partner < |ordered| ==>
      && IdOf(ordered[partner]) !in used && CanPair(ordered[i], ordered[partner], now)
      && forall k :: i < k < partner ==> IdOf(ordered[k]) in used || !CanPair(ordered[i], ordered[k], now)
    ensures partner == |ordered| ==>
      forall k :: i < k < |ordered| ==> IdOf(ordered[k]) in used || !CanPair(ordered[i], ordered[k], now)
  {
    var request := ordered[i].request;
    var toleranceA := request.CurrentTolerance(now);
    var j := i + 1;
    while j < |ordered|
      invariant i < j <= |ordered|
      invariant forall k :: i < k < j ==> IdOf(ordered[k]) in used || !CanPair(ordered[i], ordered[k], now)
    {
      var other := ordered[j].request;
      if IdOf(ordered[j]) !in used && RegionsCompatible(request, other) {
        var diff := Distance(request, other);
        var toleranceB := other.CurrentTolerance(now);
        if diff <= toleranceA && diff <= toleranceB {
          return j;
        }
        if other.elo - request.elo > toleranceA {
          LaterOutOfReach(ordered, i, j, now);
          return |ordered|;
        }
      }
      j := j + 1;
    }
    partner := |ordered|;
  }

  lemma LaterOutOfReach(ordered: seq<QueuedPlayer>, i: nat, j: nat, now: int)
    requires i < j < |ordered| && Sorted(RatingAscends, ordered)
    requires ordered[j].request.elo - ordered[i].request.elo > ordered[i].request.CurrentTolerance(now)
    ensures forall k :: j <= k < |ordered| ==> !CanPair(ordered[i], ordered[k], now)
  {
  }

  /** One turn on a player nobody fits: first fit sets the same player aside. */
  lemma SetAside(q: seq<QueuedPlayer>, i: nat, used: set<string>, fits: Fits)
    requires i < |q| && IdOf(q[i]) !in used
    requires forall k :: i < k < |q| ==> IdOf(q[k]) in used || !fits(q[i], q[k])
    ensures var o, o' := FirstFit(Unused(q[i..], used), fits), FirstFit(Unused(q[i + 1..], used), fits);
      o == Outcome(o'.pairs, [q[i]] + o'.rest)
  {
    var u, later := Unused(q[i..], used), Unused(q[i + 1..], used);
    assert q[i..][1..] == q[i + 1..];
    assert u == [q[i]] + later && u[1..] == later;
    NobodyFits(q[i], q[i + 1..], used, fits);
  }

  /** One turn that pairs `i` with `j`: first fit makes the same pair and goes on with the same players. */
  lemma PairUp(q: seq<QueuedPlayer>, i: nat, j: nat, used: set<string>, fits: Fits)
    requires DistinctIds(q) && i < j < |q| && IdOf(q[i]) !in used && IdOf(q[j]) !in used && fits(q[i], q[j])
    requires forall k :: i < k < j ==> IdOf(q[k]) in used || !fits(q[i], q[k])
    ensures var o := FirstFit(Unused(q[i..], used), fits);
      var o' := FirstFit(Unused(q[i + 1..], used + {IdOf(q[i]), IdOf(q[j])}), fits);
      o == Outcome([Pairing(q[i], q[j])] + o'.pairs, o'.rest)
  {
    var u, later := Unused(q[i..], used), q[i + 1..];
    assert q[i..][1..] == later;
    assert u == [q[i]] + Unused(later, used) && u[1..] == Unused(later, used);
    FirstFits(q[i], later, used, j - i - 1, fits);
    assert later[j - i - 1] == q[j];
    UseStranger(later, used + {IdOf(q[j])}, IdOf(q[i]));
    assert used + {IdOf(q[j])} + {IdOf(q[i])} == used + {IdOf(q[i]), IdOf(q[j])};
  }
}
