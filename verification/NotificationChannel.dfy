/** Finished matches and the queue that hands them on (match.h, match_notification_channel.cpp). */
module Notifications {
  import opened Seqs

  /** The text of a match id is a fixed prefix and this number. */
  datatype Match = Match(id: nat, players: seq<string>, averageElo: int, createdAt: int, region: string)

  class MatchNotificationChannel {
    var queue: seq<Match>
    ghost var published: seq<Match>
    ghost var delivered: seq<Match>

    /** Nothing is lost, repeated or reordered. */
    ghost predicate Valid()
      reads this
    {
      delivered + queue == published
    }

    constructor ()
      ensures Valid() && published == delivered == []
    {
      queue, published, delivered := [], [], [];
    }

    method Publish(m: Match)
      requires Valid()
      modifies this
      ensures Valid() && published == old(published) + [m] && delivered == old(delivered)
    {
      queue := queue + [m];
      published := published + [m];
    }

    method Poll() returns (next: Option<Match>)
      requires Valid()
      modifies this
      ensures Valid() && published == old(published)
      ensures next.None? <==> old(queue) == []
      ensures delivered == old(delivered) + (if next.Some? then [next.value] else [])
    {
      if queue == [] {
        next := None;
      } else {
        next := Some(queue[0]);
        delivered := delivered + [queue[0]];
        queue := queue[1..];
      }
    }

    method Drain() returns (matches: seq<Match>)
      requires Valid()
      modifies this
      ensures Valid() && queue == [] && published == old(published) == delivered
      ensures delivered == old(delivered) + matches
    {
      matches := [];
      while queue != []
        invariant Valid() && published == old(published) && delivered == old(delivered) + matches
        decreases |queue|
      {
        matches := matches + [queue[0]];
        delivered := delivered + [queue[0]];
        queue := queue[1..];
      }
    }
  }
}
