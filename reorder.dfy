/**
 * The result of the `reorder-queue` loop: the i-th supplied id gets queue
 * position i + 1, one row at a time, so an id listed twice keeps the position
 * of its last occurrence and an id not listed keeps the position it had.
 */
module Reorder {

  import opened Sorting
  import opened Store
  import opened QueueService

  /** The index of the last occurrence of `x`. */
  function LastIndex(ids: seq<RequestId>, x: RequestId): (i: nat)
    requires x in ids
    ensures i < |ids| && ids[i] == x
    ensures forall j :: i < j < |ids| ==> ids[j] != x
    decreases |ids|
  {
    var n := |ids| - 1;
    if ids[n] == x then n
    else
      assert x in ids[..n] by {
        var j :| 0 <= j < |ids| && ids[j] == x;
        assert ids[..n][j] == x;
      }
      LastIndex(ids[..n], x)
  }

  /** The requests table once every listed id has received its position. */
  function Reordered(reqs: seq<Request>, ids: seq<RequestId>): (r: seq<Request>)
    ensures |r| == |reqs|
    ensures forall k :: 0 <= k < |r| ==> r[k].(position := reqs[k].position) == reqs[k]
    ensures forall k :: 0 <= k < |r| && reqs[k].id !in ids ==> r[k] == reqs[k]
    ensures forall k :: 0 <= k < |r| && reqs[k].id in ids ==>
      && r[k].position.Some? && 1 <= r[k].position.value <= |ids|
      && ids[r[k].position.value - 1] == reqs[k].id
      && forall j :: r[k].position.value <= j < |ids| ==> ids[j] != reqs[k].id
  {
    seq(|reqs|, k requires 0 <= k < |reqs| =>
      if reqs[k].id in ids then reqs[k].(position := Some(LastIndex(ids, reqs[k].id) + 1)) else reqs[k])
  }

  lemma LastIndexOfLonger(ids: seq<RequestId>, i: nat, x: RequestId)
    requires i < |ids|
    requires x != ids[i]
    ensures x in ids[..i + 1] <==> x in ids[..i]
    ensures x in ids[..i] ==> LastIndex(ids[..i + 1], x) == LastIndex(ids[..i], x)
  {
    var p, p1 := ids[..i], ids[..i + 1];
    assert p1 == p + [ids[i]];
    if x in p {
      var a, b := LastIndex(p1, x), LastIndex(p, x);
      assert a < i;
      assert p[a] == x;
    }
  }

  /** One pass of the loop body: position i + 1 written on the row with the i-th id. */
  lemma ReorderStep(reqs: seq<Request>, ids: seq<RequestId>, i: nat)
    requires i < |ids|
    ensures Reordered(reqs, ids[..i + 1]) == SetPosition(Reordered(reqs, ids[..i]), ids[i], i + 1)
  {
    var lhs := Reordered(reqs, ids[..i + 1]);
    var rhs := SetPosition(Reordered(reqs, ids[..i]), ids[i], i + 1);
    forall k | 0 <= k < |reqs| ensures lhs[k] == rhs[k] {
      var x := reqs[k].id;
      if x == ids[i] {
        assert ids[..i + 1][i] == x;
        assert LastIndex(ids[..i + 1], x) == i;
      } else {
        LastIndexOfLonger(ids, i, x);
      }
    }
  }

  /** Reordering keeps every row's id, status and event: only positions move. */
  lemma ReorderKeepsRows(reqs: seq<Request>, ids: seq<RequestId>)
    ensures |Reordered(reqs, ids)| == |reqs|
    ensures Ids(Reordered(reqs, ids)) == Ids(reqs)
    ensures forall k :: 0 <= k < |reqs| ==>
      && Reordered(reqs, ids)[k].status == reqs[k].status
      && Reordered(reqs, ids)[k].eventId == reqs[k].eventId
      && (reqs[k].position.Some? ==> Reordered(reqs, ids)[k].position.Some?)
  {
  }

  /** The ids of the event's accepted requests. */
  function AcceptedIds(reqs: seq<Request>, eventId: EventId): set<RequestId> {
    set x | x in reqs && InQueueOf(x, eventId) :: x.id
  }

  lemma AcceptedIdsOfReordered(reqs: seq<Request>, ids: seq<RequestId>, eventId: EventId)
    ensures AcceptedIds(Reordered(reqs, ids), eventId) == AcceptedIds(reqs, eventId)
  {
    var r := Reordered(reqs, ids);
    ReorderKeepsRows(reqs, ids);
    forall y | y in AcceptedIds(r, eventId) ensures y in AcceptedIds(reqs, eventId) {
      var x :| x in r && InQueueOf(x, eventId) && x.id == y;
      var k :| 0 <= k < |r| && r[k] == x;
      assert Ids(r)[k] == Ids(reqs)[k];
      assert reqs[k] in reqs && InQueueOf(reqs[k], eventId);
    }
    forall y | y in AcceptedIds(reqs, eventId) ensures y in AcceptedIds(r, eventId) {
      var x :| x in reqs && InQueueOf(x, eventId) && x.id == y;
      var k :| 0 <= k < |reqs| && reqs[k] == x;
      assert Ids(r)[k] == Ids(reqs)[k];
      assert r[k] in r && InQueueOf(r[k], eventId);
    }
  }

  /** A queue without repeated ids has exactly as many rows as the event has accepted ids. */
  lemma QueueLength(reqs: seq<Request>, votes: map<nat, Vote>, eventId: EventId)
    requires UniqueIds(reqs)
    ensures |QueueWithVotes(reqs, votes, eventId)| == |AcceptedIds(reqs, eventId)|
  {
    var a := AcceptedOf(reqs, eventId);
    IdsOfAccepted(a, reqs, eventId);
    DistinctCard(Ids(a));
  }

  /** The ids of any list holding exactly the event's accepted requests are its accepted ids. */
  lemma IdsOfAccepted(a: seq<Request>, reqs: seq<Request>, eventId: EventId)
    requires forall x :: x in a <==> x in reqs && InQueueOf(x, eventId)
    ensures Elems(Ids(a)) == AcceptedIds(reqs, eventId)
  {
    forall y ensures y in Elems(Ids(a)) <==> y in AcceptedIds(reqs, eventId) {
      if y in Elems(Ids(a)) {
        var k :| 0 <= k < |a| && Ids(a)[k] == y;
        assert a[k] in a;
      }
      if y in AcceptedIds(reqs, eventId) {
        var x :| x in reqs && InQueueOf(x, eventId) && x.id == y;
        var k :| 0 <= k < |a| && a[k] == x;
        assert Ids(a)[k] == y;
      }
    }
  }

  /** After a reorder by the accepted ids, each queued request sits at one more than its index in the list. */
  lemma {:induction false} QueueKeysFromIds(reqs: seq<Request>, votes: map<nat, Vote>, eventId: EventId, ids: seq<RequestId>)
    requires Elems(ids) == AcceptedIds(reqs, eventId)
    ensures var q := QueueWithVotes(Reordered(reqs, ids), votes, eventId);
      forall i :: 0 <= i < |q| ==>
        q[i].request.id in ids && PositionKey(q[i].request) == LastIndex(ids, q[i].request.id) + 1
  {
    var r := Reordered(reqs, ids);
    ReorderKeepsRows(reqs, ids);
    var q := QueueWithVotes(r, votes, eventId);
    forall i | 0 <= i < |q|
      ensures q[i].request.id in ids
      ensures PositionKey(q[i].request) == LastIndex(ids, q[i].request.id) + 1
    {
      var x := q[i].request;
      assert x in r && InQueueOf(x, eventId);
      var k :| 0 <= k < |r| && r[k] == x;
      assert Ids(r)[k] == Ids(reqs)[k];
      assert reqs[k] in reqs && InQueueOf(reqs[k], eventId);
      assert x.id in AcceptedIds(reqs, eventId);
      assert x.id in Elems(ids);
    }
  }

  /**
   * When the supplied ids are the event's accepted requests, each once and in
   * some order, the queue read after the reorder lists exactly those ids in
   * exactly that order.
   */
  lemma {:induction false} ReorderSetsQueueOrder(reqs: seq<Request>, votes: map<nat, Vote>, eventId: EventId, ids: seq<RequestId>)
    requires UniqueIds(reqs)
    requires Distinct(ids)
    requires Elems(ids) == AcceptedIds(reqs, eventId)
    ensures QueueIds(QueueWithVotes(Reordered(reqs, ids), votes, eventId)) == ids
  {
    var r := Reordered(reqs, ids);
    ReorderKeepsRows(reqs, ids);
    assert UniqueIds(r);
    AcceptedIdsOfReordered(reqs, ids, eventId);
    QueueLength(r, votes, eventId);
    DistinctCard(ids);
    QueueKeysFromIds(reqs, votes, eventId, ids);
    var q := QueueWithVotes(r, votes, eventId);
    FillOrder(q, ids);
  }

  /** Sorted rows with distinct ids, each keyed one past its id's index in `ids`, list `ids` in order. */
  lemma {:induction false} FillOrder(q: seq<QueueRow>, ids: seq<RequestId>)
    requires |q| == |ids|
    requires forall i :: 0 <= i < |q| ==>
      q[i].request.id in ids && PositionKey(q[i].request) == LastIndex(ids, q[i].request.id) + 1
    requires forall i, j :: 0 <= i < j < |q| ==> PositionKey(q[i].request) <= PositionKey(q[j].request)
    requires forall i, j :: 0 <= i < j < |q| ==> q[i].request.id != q[j].request.id
    ensures QueueIds(q) == ids
  {
    var keys := seq(|q|, i requires 0 <= i < |q| => PositionKey(q[i].request));
    forall i, j | 0 <= i < j < |keys| ensures keys[i] < keys[j] {
      var xi, xj := q[i].request.id, q[j].request.id;
      assert ids[LastIndex(ids, xi)] == xi && ids[LastIndex(ids, xj)] == xj;
    }
    IncreasingFill(keys);
    forall i | 0 <= i < |q| ensures QueueIds(q)[i] == ids[i] {
      assert keys[i] == i + 1;
    }
  }

  /**
   * A reorder that leaves out an accepted request can give two queued requests
   * the same position: `a` at 1 and `b` at 2, reordered as `[b]`, leaves both at 1.
   */
  lemma PartialReorderCollides(a: Request, b: Request)
    requires a.id != b.id
    requires a.position == Some(1) && b.position == Some(2)
    ensures var r := Reordered([a, b], [b.id]);
      r[0].position == r[1].position == Some(1)
  {
    assert LastIndex([b.id], b.id) == 0;
  }
}
