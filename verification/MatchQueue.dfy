/** The rating-bucketed queue with its index of list positions (match_queue.cpp). */
module MatchQueues {
  import opened Seqs
  import opened Sorting
  import opened MatchRequests
  import opened Greedy

  /** A list node; its handle is what an iterator to it identifies, whatever is inserted or erased around it. */
  datatype Node = Node(handle: nat, entry: QueuedPlayer)

  function IdOf(q: QueuedPlayer): string { q.request.playerId }

  predicate QueueBefore(a: QueuedPlayer, b: QueuedPlayer) {
    if a.request.elo == b.request.elo then a.order < b.order else a.request.elo < b.request.elo
  }

  /** Nodes of one bucket: orders ascend, and no two nodes share a handle. */
  predicate NodeBefore(a: Node, b: Node) {
    a.entry.order <= b.entry.order && a.handle != b.handle
  }

  function Others(handle: nat): Node -> bool {
    (n: Node) => n.handle != handle
  }

  ghost predicate DistinctIds(q: seq<QueuedPlayer>) {
    forall i, j :: 0 <= i < j < |q| ==> IdOf(q[i]) != IdOf(q[j])
  }

  type Contents = map<string, QueuedPlayer>

  ghost predicate DistinctOrders(c: Contents) {
    && (forall id :: id in c ==> IdOf(c[id]) == id)
    && (forall id, other :: id in c && other in c && id != other ==> c[id].order != c[other].order)
  }

  lemma QueueBeforeIsAnOrder()
    ensures Transitive(QueueBefore) && Asymmetric(QueueBefore)
  {
  }

  /** The queued players in the order matching visits them. */
  ghost predicate IsOrdering(q: seq<QueuedPlayer>, c: Contents) {
    && Sorted(QueueBefore, q)
    && (forall x :: x in q <==> IdOf(x) in c && c[IdOf(x)] == x)
  }

  ghost function Listing(c: Contents): seq<QueuedPlayer> {
    if c == map[] then []
    else
      var id :| id in c;
      [c[id]] + Listing(c - {id})
  }

  /** The ordering of the queue's contents. */
  ghost function Ordering(c: Contents): seq<QueuedPlayer> {
    Sort(QueueBefore, Listing(c))
  }

  lemma {:induction false} ListingMembers(c: Contents)
    requires forall id :: id in c ==> IdOf(c[id]) == id
    ensures forall x :: x in Listing(c) <==> IdOf(x) in c && c[IdOf(x)] == x
    decreases |c|
  {
    if c != map[] {
      var id :| id in c && Listing(c) == [c[id]] + Listing(c - {id});
      ListingMembers(c - {id});
    }
  }

  lemma {:induction false} ListingComparable(c: Contents)
    requires DistinctOrders(c)
    ensures Comparable(QueueBefore, Listing(c))
    decreases |c|
  {
    if c != map[] {
      var id :| id in c && Listing(c) == [c[id]] + Listing(c - {id});
      Fewer(c, c - {id});
      ListingComparable(c - {id});
      HeadComparable(c, id);
    }
  }

  lemma HeadComparable(c: Contents, id: string)
    requires DistinctOrders(c) && id in c
    ensures forall x :: x in Listing(c - {id}) ==> QueueBefore(c[id], x) || QueueBefore(x, c[id])
  {
    ListingMembers(c - {id});
  }

  lemma Fewer(c: Contents, c': Contents)
    requires DistinctOrders(c) && c'.Keys <= c.Keys && forall id :: id in c' ==> c'[id] == c[id]
    ensures DistinctOrders(c')
  {
  }

  /** Distinct order numbers, none above `top`. */
  ghost predicate Ordered(c: Contents, top: nat) {
    DistinctOrders(c) && forall id :: id in c ==> c[id].order <= top
  }

  lemma FewerOrdered(c: Contents, c': Contents, top: nat)
    requires Ordered(c, top) && c'.Keys <= c.Keys && forall id :: id in c' ==> c'[id] == c[id]
    ensures Ordered(c', top)
  {
  }

  lemma OneMore(c: Contents, entry: QueuedPlayer, top: nat)
    requires Ordered(c, top) && entry.order == top + 1
    ensures Ordered(c[IdOf(entry) := entry], top + 1)
  {
  }

  lemma OrderingIsOrdering(c: Contents)
    requires DistinctOrders(c)
    ensures IsOrdering(Ordering(c), c)
  {
    ListingMembers(c);
    ListingComparable(c);
    QueueBeforeIsAnOrder();
    SortPermutes(QueueBefore, Listing(c));
    SortSorts(QueueBefore, Listing(c));
  }

  lemma OrderingUnique(a: seq<QueuedPlayer>, b: seq<QueuedPlayer>, c: Contents)
    requires IsOrdering(a, c) && IsOrdering(b, c)
    ensures a == b
  {
    QueueBeforeIsAnOrder();
    SortedUnique(QueueBefore, a, b);
  }

  lemma {:induction false} DistinctIsOnce(q: seq<QueuedPlayer>)
    requires DistinctIds(q)
    ensures forall x :: multiset(q)[x] <= 1
  {
    if q != [] {
      DistinctIsOnce(q[1..]);
      assert q == [q[0]] + q[1..];
      assert q[0] !in q[1..];
    }
  }

  lemma TwiceIsTwo(q: seq<QueuedPlayer>, i: nat, j: nat)
    requires i < j < |q| && q[i] == q[j]
    ensures multiset(q)[q[i]] >= 2
  {
    assert q == q[..i + 1] + q[i + 1..];
    assert q[..i + 1][i] in multiset(q[..i + 1]) && q[i + 1..][j - i - 1] in multiset(q[i + 1..]);
  }

  /** Queued players with different ids keep them in any permutation. */
  lemma SortKeepsDistinct(q: seq<QueuedPlayer>, sorted: seq<QueuedPlayer>, c: Contents)
    requires DistinctIds(q) && multiset(sorted) == multiset(q)
    requires forall x :: x in sorted ==> IdOf(x) in c && c[IdOf(x)] == x
    ensures DistinctIds(sorted)
  {
    DistinctIsOnce(q);
    forall i, j | 0 <= i < j < |sorted| ensures IdOf(sorted[i]) != IdOf(sorted[j]) {
      assert sorted[i] in sorted && sorted[j] in sorted;
      if sorted[i] == sorted[j] {
        TwiceIsTwo(sorted, i, j);
      }
    }
  }

  /** Sorting what is already in order changes nothing. */
  lemma SortOfSorted(q: seq<QueuedPlayer>)
    requires Sorted(QueueBefore, q)
    ensures Sort(QueueBefore, q) == q
  {
  }

  /** Node `n` of the bucket for `elo` is where the index says its player is, holding what that player queued. */
  ghost predicate Filed(n: Node, elo: int, index: map<string, (int, nat)>, next: nat, c: Contents) {
    var id := IdOf(n.entry);
    && n.entry.request.elo == elo && n.handle < next
    && id in index && index[id] == (elo, n.handle)
    && id in c && c[id] == n.entry
  }

  /**
   * Buckets and index stand for one map: no empty bucket, each in order, each player exactly where the index points.
   */
  ghost predicate Agree(buckets: map<int, seq<Node>>, index: map<string, (int, nat)>, next: nat, c: Contents) {
    && (forall elo :: elo in buckets ==> buckets[elo] != [] && Sorted(NodeBefore, buckets[elo]))
    && (forall elo, n :: elo in buckets && n in buckets[elo] ==> Filed(n, elo, index, next, c))
    && index.Keys == c.Keys
    && (forall id :: id in c ==> IdOf(c[id]) == id)
    && (forall id :: id in index ==>
          index[id].0 in buckets && Node(index[id].1, c[id]) in buckets[index[id].0])
  }

  function WithoutBucket(buckets: map<int, seq<Node>>, elo: int, bucket: seq<Node>): map<int, seq<Node>> {
    if bucket == [] then buckets - {elo} else buckets[elo := bucket]
  }

  lemma SameHandle(bucket: seq<Node>, a: Node, b: Node)
    requires Sorted(NodeBefore, bucket) && a in bucket && b in bucket
    ensures a.handle == b.handle ==> a == b
  {
  }

  /** What erasing the node of `id` leaves behind. */
  lemma Erased(buckets: map<int, seq<Node>>, index: map<string, (int, nat)>, next: nat, c: Contents, id: string)
    requires Agree(buckets, index, next, c) && id in index
    ensures var (elo, handle) := index[id];
      Agree(WithoutBucket(buckets, elo, Filter(buckets[elo], Others(handle))), index - {id}, next, c - {id})
  {
    var (elo, handle) := index[id];
    var bucket := Filter(buckets[elo], Others(handle));
    FilterMembers(buckets[elo], Others(handle));
    FilterSorted(NodeBefore, buckets[elo], Others(handle));
    var buckets', index', c' := WithoutBucket(buckets, elo, bucket), index - {id}, c - {id};
    forall e, n | e in buckets' && n in buckets'[e] ensures Filed(n, e, index', next, c') {
      assert n in buckets[e] && Filed(n, e, index, next, c);
      assert IdOf(n.entry) != id;
    }
    forall other | other in index'
      ensures index'[other].0 in buckets' && Node(index'[other].1, c'[other]) in buckets'[index'[other].0]
    {
      var n := Node(index[other].1, c[other]);
      assert n in buckets[index[other].0];
      if index[other].0 == elo {
        SameHandle(buckets[elo], n, Node(handle, c[id]));
        assert n in bucket;
      }
    }
  }

  /** What storing a bucket that gained a node for a new player leaves behind. */
  lemma Placed(buckets: map<int, seq<Node>>, index: map<string, (int, nat)>, next: nat, c: Contents,
               elo: int, inserted: seq<Node>, node: Node)
    requires Agree(buckets, index, next, c)
    requires node.handle == next && node.entry.request.elo == elo && IdOf(node.entry) !in index
    requires inserted != [] && Sorted(NodeBefore, inserted)
    requires forall n :: n in inserted <==> n == node || (elo in buckets && n in buckets[elo])
    ensures Agree(buckets[elo := inserted], index[IdOf(node.entry) := (elo, node.handle)], next + 1,
                  c[IdOf(node.entry) := node.entry])
  {
  }

  lemma InsertKeepsOrder(bucket: seq<Node>, at: nat, node: Node)
    requires Sorted(NodeBefore, bucket) && at <= |bucket|
    requires forall k :: 0 <= k < at ==> bucket[k].entry.order <= node.entry.order
    requires at < |bucket| ==> node.entry.order < bucket[at].entry.order
    requires forall n :: n in bucket ==> n.handle < node.handle
    ensures Sorted(NodeBefore, bucket[..at] + [node] + bucket[at..])
    ensures forall n :: n in bucket[..at] + [node] + bucket[at..] <==> n in bucket || n == node
  {
  }

  /** A node for a new player goes into its bucket at the place found for it. */
  lemma Inserted(buckets: map<int, seq<Node>>, index: map<string, (int, nat)>, next: nat, c: Contents,
                 bucket: seq<Node>, at: nat, node: Node)
    requires Agree(buckets, index, next, c) && node.handle == next && IdOf(node.entry) !in index
    requires bucket == (if node.entry.request.elo in buckets then buckets[node.entry.request.elo] else [])
    requires at <= |bucket| && forall k :: 0 <= k < at ==> bucket[k].entry.order <= node.entry.order
    requires at < |bucket| ==> node.entry.order < bucket[at].entry.order
    ensures var elo := node.entry.request.elo;
      Agree(buckets[elo := bucket[..at] + [node] + bucket[at..]], index[IdOf(node.entry) := (elo, node.handle)],
            next + 1, c[IdOf(node.entry) := node.entry])
  {
    var elo := node.entry.request.elo;
    forall n | n in bucket ensures n.handle < next {
      assert Filed(n, elo, index, next, c);
    }
    InsertKeepsOrder(bucket, at, node);
    Placed(buckets, index, next, c, elo, bucket[..at] + [node] + bucket[at..], node);
  }

  lemma BucketAscends(buckets: map<int, seq<Node>>, index: map<string, (int, nat)>, next: nat, c: Contents,
                      elo: int, k: nat, i: nat)
    requires Agree(buckets, index, next, c) && DistinctOrders(c) && elo in buckets && k < i < |buckets[elo]|
    ensures QueueBefore(buckets[elo][k].entry, buckets[elo][i].entry)
  {
    var a, b := buckets[elo][k], buckets[elo][i];
    assert NodeBefore(a, b);
    assert Filed(a, elo, index, next, c) && Filed(b, elo, index, next, c);
  }

  class InMemoryMatchQueue {
    var buckets: map<int, seq<Node>>
    var index: map<string, (int, nat)>
    var nextHandle: nat
    /** The one map both structures stand for. */
    ghost var contents: Contents

    ghost predicate Valid()
      reads this
    {
      Agree(buckets, index, nextHandle, contents)
    }

    constructor ()
      ensures Valid() && contents == map[]
    {
      buckets, index, nextHandle, contents := map[], map[], 0, map[];
    }

    /** Erases the node of a queued player; an emptied bucket goes with it. */
    method EraseEntry(id: string)
      requires Valid() && id in index
      modifies this
      ensures Valid() && contents == old(contents) - {id}
    {
      Erased(buckets, index, nextHandle, contents, id);
      var (elo, handle) := index[id];
      var bucket := Filter(buckets[elo], Others(handle));
      if bucket == [] {
        buckets := buckets - {elo};
      } else {
        buckets := buckets[elo := bucket];
      }
      index := index - {id};
      contents := contents - {id};
    }

    method Upsert(request: MatchRequest, order: nat)
      requires Valid()
      modifies this
      ensures Valid() && contents == old(contents)[request.playerId := QueuedPlayer(request, order)]
    {
      if request.playerId in index {
        EraseEntry(request.playerId);
      }
      Insert(QueuedPlayer(request, order));
    }

    method Insert(entry: QueuedPlayer)
      requires Valid() && IdOf(entry) !in index
      modifies this
      ensures Valid() && contents == old(contents)[IdOf(entry) := entry]
    {
      var elo := entry.request.elo;
      var bucket := if elo in buckets then buckets[elo] else [];
      var at := InsertPosition(bucket, entry.order);
      var node := Node(nextHandle, entry);
      Inserted(buckets, index, nextHandle, contents, bucket, at, node);
      nextHandle := nextHandle + 1;
      buckets := buckets[elo := bucket[..at] + [node] + bucket[at..]];
      index := index[IdOf(entry) := (elo, node.handle)];
      contents := contents[IdOf(entry) := entry];
    }

    /** The scan for the first node with a larger order. */
    static method InsertPosition(bucket: seq<Node>, order: nat) returns (at: nat)
      ensures at <= |bucket|
      ensures forall k :: 0 <= k < at ==> bucket[k].entry.order <= order
      ensures at < |bucket| ==> order < bucket[at].entry.order
    {
      at := 0;
      while at < |bucket|
        invariant at <= |bucket| && forall k :: 0 <= k < at ==> bucket[k].entry.order <= order
      {
        if order < bucket[at].entry.order {
          return;
        }
        at := at + 1;
      }
    }

    /** The program also answers false when the bucket is missing; `Valid` shows that it never is. */
    method Remove(id: string) returns (removed: bool)
      requires Valid()
      modifies this
      ensures Valid() && removed == (id in old(contents)) && contents == old(contents) - {id}
    {
      if id !in index {
        assert contents - {id} == contents;
        return false;
      }
      assert index[id].0 in buckets;
      EraseEntry(id);
      return true;
    }

    method Size() returns (n: nat)
      requires Valid()
      ensures n == |contents|
    {
      assert index.Keys == contents.Keys;
      assert |index| == |index.Keys| && |contents| == |contents.Keys|;
      n := |index|;
    }

    /** Everything queued; with distinct orders, exactly the ordering, because the traversal is in order already. */
    method FetchOrdered() returns (ordered: seq<QueuedPlayer>)
      requires Valid()
      ensures forall x :: x in ordered <==> IdOf(x) in contents && contents[IdOf(x)] == x
      ensures DistinctIds(ordered)
      ensures DistinctOrders(contents) ==> IsOrdering(ordered, contents)
    {
      var traversal := Traverse();
      ordered := Sort(QueueBefore, traversal);
      SortPermutes(QueueBefore, traversal);
      SortKeepsDistinct(traversal, ordered, contents);
      if DistinctOrders(contents) {
        SortOfSorted(traversal);
      }
    }

    /** Bucket after bucket in ascending rating, each in list order. */
    method Traverse() returns (traversal: seq<QueuedPlayer>)
      requires Valid()
      ensures forall x :: x in traversal <==> IdOf(x) in contents && contents[IdOf(x)] == x
      ensures DistinctIds(traversal)
      ensures DistinctOrders(contents) ==> Sorted(QueueBefore, traversal)
    {
      traversal := [];
      var todo := buckets.Keys;
      EveryoneHasABucket();
      while todo != {}
        invariant todo <= buckets.Keys
        invariant forall x :: x in traversal <==> Visited(x, todo)
        invariant forall x, elo :: x in traversal && elo in todo ==> x.request.elo < elo
        invariant DistinctIds(traversal)
        invariant DistinctOrders(contents) ==> Sorted(QueueBefore, traversal)
        decreases todo
      {
        var elo := Smallest(todo);
        traversal := AppendBucket(traversal, elo);
        todo := todo - {elo};
      }
    }

    /** Queued, with its rating's bucket traversed. */
    ghost predicate Visited(x: QueuedPlayer, todo: set<int>)
      reads this
    {
      IdOf(x) in contents && contents[IdOf(x)] == x && x.request.elo !in todo
    }

    lemma EveryoneHasABucket()
      requires Valid()
      ensures forall x :: IdOf(x) in contents && contents[IdOf(x)] == x ==> x.request.elo in buckets
    {
      forall x | IdOf(x) in contents && contents[IdOf(x)] == x ensures x.request.elo in buckets {
        var n := Node(index[IdOf(x)].1, x);
        assert n in buckets[index[IdOf(x)].0] && Filed(n, index[IdOf(x)].0, index, nextHandle, contents);
      }
    }

    static method Smallest(s: set<int>) returns (least: int)
      requires s != {}
      ensures least in s && forall other :: other in s ==> least <= other
    {
      SmallestExists(s);
      least :| least in s && forall other :: other in s ==> least <= other;
    }

    method AppendBucket(before: seq<QueuedPlayer>, elo: int) returns (after: seq<QueuedPlayer>)
      requires Valid() && elo in buckets
      requires DistinctIds(before)
      requires forall x :: x in before ==> x.request.elo < elo && IdOf(x) in contents && contents[IdOf(x)] == x
      ensures forall x :: x in after <==>
        x in before || (IdOf(x) in contents && contents[IdOf(x)] == x && x.request.elo == elo)
      ensures DistinctIds(after)
      ensures DistinctOrders(contents) && Sorted(QueueBefore, before) ==> Sorted(QueueBefore, after)
    {
      var bucket := buckets[elo];
      after := before;
      var i := 0;
      while i < |bucket|
        invariant i <= |bucket| && |after| == |before| + i
        invariant after[..|before|] == before
        invariant forall k :: 0 <= k < i ==> after[|before| + k] == bucket[k].entry
      {
        after := after + [bucket[i].entry];
        i := i + 1;
      }
      BucketMembers(elo, before, after);
      BucketDistinct(elo, before, after);
      if DistinctOrders(contents) && Sorted(QueueBefore, before) {
        BucketSorted(elo, before, after);
      }
    }

    lemma BucketMembers(elo: int, before: seq<QueuedPlayer>, after: seq<QueuedPlayer>)
      requires Valid() && elo in buckets && |after| == |before| + |buckets[elo]| && after[..|before|] == before
      requires forall k :: 0 <= k < |buckets[elo]| ==> after[|before| + k] == buckets[elo][k].entry
      ensures forall x :: x in after <==>
        x in before || (IdOf(x) in contents && contents[IdOf(x)] == x && x.request.elo == elo)
    {
      var bucket := buckets[elo];
      assert forall k :: 0 <= k < |before| ==> after[k] == before[k] && before[k] in before;
      forall x | x in after && x !in before
        ensures IdOf(x) in contents && contents[IdOf(x)] == x && x.request.elo == elo
      {
        var m :| 0 <= m < |after| && after[m] == x;
        assert bucket[m - |before|] in bucket && Filed(bucket[m - |before|], elo, index, nextHandle, contents);
        assert after[|before| + (m - |before|)] == bucket[m - |before|].entry;
      }
      forall x | IdOf(x) in contents && contents[IdOf(x)] == x && x.request.elo == elo ensures x in after {
        var n := Node(index[IdOf(x)].1, x);
        assert n in buckets[index[IdOf(x)].0];
        assert Filed(n, index[IdOf(x)].0, index, nextHandle, contents);
        var k :| 0 <= k < |bucket| && bucket[k] == n;
        assert after[|before| + k] == x;
      }
      forall x | x in before ensures x in after {
        var m :| 0 <= m < |before| && before[m] == x;
        assert after[m] == after[..|before|][m];
      }
    }

    /** Two nodes of one player would be at one place. */
    lemma BucketDistinct(elo: int, before: seq<QueuedPlayer>, after: seq<QueuedPlayer>)
      requires Valid() && elo in buckets && |after| == |before| + |buckets[elo]| && after[..|before|] == before
      requires forall k :: 0 <= k < |buckets[elo]| ==> after[|before| + k] == buckets[elo][k].entry
      requires DistinctIds(before)
      requires forall x :: x in before ==> x.request.elo < elo && IdOf(x) in contents && contents[IdOf(x)] == x
      ensures DistinctIds(after)
    {
      var bucket, n := buckets[elo], |before|;
      forall i, j | 0 <= i < j < |after| ensures IdOf(after[i]) != IdOf(after[j]) {
        if i < n {
          assert after[i] == before[i] && before[i] in before;
        }
        if j < n {
          assert after[j] == before[j];
        } else {
          assert after[n + (j - n)] == bucket[j - n].entry;
          assert bucket[j - n] in bucket && Filed(bucket[j - n], elo, index, nextHandle, contents);
          if i >= n {
            assert after[n + (i - n)] == bucket[i - n].entry;
            assert bucket[i - n] in bucket && Filed(bucket[i - n], elo, index, nextHandle, contents);
            assert NodeBefore(bucket[i - n], bucket[j - n]);
          }
        }
      }
    }

    lemma BucketSorted(elo: int, before: seq<QueuedPlayer>, after: seq<QueuedPlayer>)
      requires Valid() && elo in buckets && |after| == |before| + |buckets[elo]| && after[..|before|] == before
      requires forall k :: 0 <= k < |buckets[elo]| ==> after[|before| + k] == buckets[elo][k].entry
      requires DistinctOrders(contents) && Sorted(QueueBefore, before)
      requires forall x :: x in before ==> x.request.elo < elo
      ensures Sorted(QueueBefore, after)
    {
      var bucket, n := buckets[elo], |before|;
      forall i, j | 0 <= i < j < |after| ensures QueueBefore(after[i], after[j]) {
        if i < n {
          assert after[i] == before[i] && before[i] in before;
        }
        if j < n {
          assert after[j] == before[j];
        } else {
          assert after[n + (j - n)] == bucket[j - n].entry;
          assert bucket[j - n] in bucket && Filed(bucket[j - n], elo, index, nextHandle, contents);
          if i >= n {
            assert after[n + (i - n)] == bucket[i - n].entry;
            BucketAscends(buckets, index, nextHandle, contents, elo, i - n, j - n);
          }
        }
      }
    }
  }

  lemma {:induction false} SmallestExists(s: set<int>)
    requires s != {}
    ensures exists least :: least in s && forall other :: other in s ==> least <= other
    decreases |s|
  {
    var x := Pick(s);
    var rest := s - {x};
    if rest != {} {
      SmallestExists(rest);
      var y :| y in rest && forall other :: other in rest ==> y <= other;
      var least := if x < y then x else y;
      assert forall other :: other in s ==> other == x || other in rest;
      assert least in s && forall other :: other in s ==> least <= other;
    } else {
      assert forall other :: other in s ==> other == x || other in rest;
      assert forall other :: other in s ==> x <= other;
    }
  }
}
