/**
 * The queue read model: the accepted requests of an event ordered by queue
 * position with their vote tallies, one request with its tallies, the next
 * free position, and the duplicate detector.
 */
module QueueService {

  import opened Store
  import opened Sorting

  /** A row of `getQueueWithVotes`. */
  datatype QueueRow = QueueRow(request: Request, upvotes: nat, downvotes: nat, netVotes: int)

  /** A row of `getRequestWithVotes` (no net column). */
  datatype RequestRow = RequestRow(request: Request, upvotes: nat, downvotes: nat)

  datatype Location = InQueue | InPending

  datatype DuplicateCheck = NotDuplicate | Duplicate(location: Location, song: Request)

  /** The ids of the vote rows of type `t` for the request. */
  function VotesOf(votes: map<nat, Vote>, requestId: RequestId, t: VoteType): set<nat> {
    set k | k in votes && votes[k].requestId == requestId && votes[k].voteType == t
  }

  lemma {:induction false} SubsetCard<T>(a: set<T>, b: set<T>)
    requires a <= b
    ensures |a| <= |b|
    decreases |b|
  {
    if a != {} {
      var x :| x in a;
      SubsetCard(a - {x}, b - {x});
    }
  }

  /** `COUNT(DISTINCT v.id)` over the vote rows of type `t` for the request. */
  function CountVotes(votes: map<nat, Vote>, requestId: RequestId, t: VoteType): (n: nat)
    ensures n <= |votes|
    ensures n == 0 <==> forall k :: k in votes ==> !(votes[k].requestId == requestId && votes[k].voteType == t)
  {
    VotesOfBounds(votes, requestId, t);
    |VotesOf(votes, requestId, t)|
  }

  lemma VotesOfBounds(votes: map<nat, Vote>, requestId: RequestId, t: VoteType)
    ensures |VotesOf(votes, requestId, t)| <= |votes|
    ensures VotesOf(votes, requestId, t) == {} <==>
      forall k :: k in votes ==> !(votes[k].requestId == requestId && votes[k].voteType == t)
  {
    var s := VotesOf(votes, requestId, t);
    SubsetCard(s, votes.Keys);
    if exists k :: k in votes && votes[k].requestId == requestId && votes[k].voteType == t {
      var k :| k in votes && votes[k].requestId == requestId && votes[k].voteType == t;
      assert k in s;
    }
  }

  predicate InQueueOf(r: Request, eventId: EventId) {
    r.eventId == eventId && r.status == Accepted
  }

  /** `ORDER BY queue_position ASC`: MySQL puts NULL before every number. */
  function PositionKey(r: Request): int {
    match r.position
    case None => -1
    case Some(p) => p
  }

  /** `WHERE event_id = ? AND status = 'accepted'`, in table order. */
  function AcceptedOf(reqs: seq<Request>, eventId: EventId): (a: seq<Request>)
    ensures forall x :: x in a <==> x in reqs && InQueueOf(x, eventId)
    ensures UniqueIds(reqs) ==> UniqueIds(a)
    decreases |reqs|
  {
    if reqs == [] then []
    else
      var rest := AcceptedOf(reqs[1..], eventId);
      assert reqs == [reqs[0]] + reqs[1..];
      if InQueueOf(reqs[0], eventId) then
        ConsUnique(reqs[0], rest, reqs[1..]);
        [reqs[0]] + rest
      else
        assert UniqueIds(reqs) ==> UniqueIds(reqs[1..]) by {
          if UniqueIds(reqs) {
            forall i, j | 0 <= i < j < |reqs[1..]| ensures reqs[1..][i].id != reqs[1..][j].id {
              assert reqs[1..][i] == reqs[i + 1] && reqs[1..][j] == reqs[j + 1];
            }
          }
        }
        rest
  }

  lemma ConsUnique(x: Request, rest: seq<Request>, tail: seq<Request>)
    requires forall y :: y in rest ==> y in tail
    requires UniqueIds([x] + tail) ==> UniqueIds(rest)
    ensures UniqueIds([x] + tail) ==> UniqueIds([x] + rest)
  {
    if UniqueIds([x] + tail) {
      forall j | 0 <= j < |tail| ensures tail[j].id != x.id {
        assert ([x] + tail)[j + 1] == tail[j];
        assert Ids([x] + tail)[0] != Ids([x] + tail)[j + 1];
      }
      forall i, j | 0 <= i < j < |[x] + rest| ensures ([x] + rest)[i].id != ([x] + rest)[j].id {
        if i == 0 {
          assert ([x] + rest)[j] == rest[j - 1];
          assert rest[j - 1] in tail;
        } else {
          assert ([x] + rest)[i] == rest[i - 1] && ([x] + rest)[j] == rest[j - 1];
        }
      }
    }
  }

  /** The accepted requests of the event in queue order. */
  function QueueOrder(reqs: seq<Request>, eventId: EventId): (q: seq<Request>)
    ensures forall x :: x in q <==> x in reqs && InQueueOf(x, eventId)
    ensures multiset(q) == multiset(AcceptedOf(reqs, eventId))
    ensures SortedBy(q, PositionKey)
  {
    var a := AcceptedOf(reqs, eventId);
    var q := SortBy(a, PositionKey);
    assert forall x :: x in q <==> x in multiset(a);
    q
  }

  function WithVotes(r: Request, votes: map<nat, Vote>): QueueRow {
    var up := CountVotes(votes, r.id, Up);
    var down := CountVotes(votes, r.id, Down);
    QueueRow(r, up, down, up - down)
  }

  function Tally(order: seq<Request>, votes: map<nat, Vote>): (q: seq<QueueRow>)
    ensures |q| == |order|
    ensures forall i :: 0 <= i < |q| ==> q[i] == WithVotes(order[i], votes)
    ensures forall i :: 0 <= i < |q| ==> q[i].request == order[i]
  {
    var q := seq(|order|, i requires 0 <= i < |order| => WithVotes(order[i], votes));
    assert forall i :: 0 <= i < |q| ==> q[i].request == order[i];
    q
  }

  /** `getQueueWithVotes(eventId)`. */
  function QueueWithVotes(reqs: seq<Request>, votes: map<nat, Vote>, eventId: EventId): (q: seq<QueueRow>)
    ensures |q| == |AcceptedOf(reqs, eventId)|
    ensures forall i :: 0 <= i < |q| ==> q[i].request in reqs && InQueueOf(q[i].request, eventId)
    ensures forall x :: x in reqs && InQueueOf(x, eventId) ==> exists i :: 0 <= i < |q| && q[i].request == x
    ensures forall i, j :: 0 <= i < j < |q| ==> PositionKey(q[i].request) <= PositionKey(q[j].request)
    ensures forall i :: 0 <= i < |q| ==>
      && q[i].upvotes == CountVotes(votes, q[i].request.id, Up)
      && q[i].downvotes == CountVotes(votes, q[i].request.id, Down)
      && q[i].netVotes == q[i].upvotes - q[i].downvotes
    ensures UniqueIds(reqs) ==> forall i, j :: 0 <= i < j < |q| ==> q[i].request.id != q[j].request.id
  {
    var order := QueueOrder(reqs, eventId);
    var q := Tally(order, votes);
    QueueFacts(reqs, votes, eventId, order, q);
    q
  }

  /** What the queue rows inherit from the sorted accepted requests they were built from. */
  lemma QueueFacts(reqs: seq<Request>, votes: map<nat, Vote>, eventId: EventId, order: seq<Request>, q: seq<QueueRow>)
    requires forall x :: x in order <==> x in reqs && InQueueOf(x, eventId)
    requires multiset(order) == multiset(AcceptedOf(reqs, eventId))
    requires SortedBy(order, PositionKey)
    requires |q| == |order|
    requires forall i :: 0 <= i < |q| ==> q[i] == WithVotes(order[i], votes)
    ensures |q| == |AcceptedOf(reqs, eventId)|
    ensures forall i :: 0 <= i < |q| ==> q[i].request in reqs && InQueueOf(q[i].request, eventId)
    ensures forall x :: x in reqs && InQueueOf(x, eventId) ==> exists i :: 0 <= i < |q| && q[i].request == x
    ensures forall i, j :: 0 <= i < j < |q| ==> PositionKey(q[i].request) <= PositionKey(q[j].request)
    ensures forall i :: 0 <= i < |q| ==>
      && q[i].upvotes == CountVotes(votes, q[i].request.id, Up)
      && q[i].downvotes == CountVotes(votes, q[i].request.id, Down)
      && q[i].netVotes == q[i].upvotes - q[i].downvotes
    ensures UniqueIds(reqs) ==> forall i, j :: 0 <= i < j < |q| ==> q[i].request.id != q[j].request.id
  {
    assert |order| == |multiset(order)| == |AcceptedOf(reqs, eventId)|;
    assert forall i :: 0 <= i < |q| ==> q[i].request == order[i];
    OrderHasUniqueIds(reqs, eventId, order);
    forall x | x in reqs && InQueueOf(x, eventId) ensures exists i :: 0 <= i < |q| && q[i].request == x {
      var i :| 0 <= i < |order| && order[i] == x;
      assert q[i].request == x;
    }
  }

  /** The queue order lists no request twice. */
  lemma OrderHasUniqueIds(reqs: seq<Request>, eventId: EventId, order: seq<Request>)
    requires multiset(order) == multiset(AcceptedOf(reqs, eventId))
    ensures UniqueIds(reqs) ==> forall i, j :: 0 <= i < j < |order| ==> order[i].id != order[j].id
  {
    if !UniqueIds(reqs) {
      return;
    }
    var a := AcceptedOf(reqs, eventId);
    assert Distinct(a) by {
      forall i, j | 0 <= i < j < |a| ensures a[i] != a[j] {
        assert Ids(a)[i] != Ids(a)[j];
      }
    }
    PermutationDistinct(a, order);
    forall i, j | 0 <= i < j < |order| ensures order[i].id != order[j].id {
      assert order[i] in multiset(a) && order[j] in multiset(a);
      assert order[i] in a && order[j] in a;
      assert order[i] in reqs && order[j] in reqs;
      var ki :| 0 <= ki < |reqs| && reqs[ki] == order[i];
      var kj :| 0 <= kj < |reqs| && reqs[kj] == order[j];
      assert ki != kj;
      if ki < kj {
        assert Ids(reqs)[ki] != Ids(reqs)[kj];
      } else {
        assert Ids(reqs)[kj] != Ids(reqs)[ki];
      }
    }
  }

  /** The ids of the queue rows, front to back. */
  function QueueIds(q: seq<QueueRow>): (ids: seq<RequestId>)
    ensures |ids| == |q|
    ensures forall i :: 0 <= i < |q| ==> ids[i] == q[i].request.id
  {
    seq(|q|, i requires 0 <= i < |q| => q[i].request.id)
  }

  function FirstWithId(reqs: seq<Request>, id: RequestId): (o: Option<Request>)
    ensures o.Some? ==> o.value in reqs && o.value.id == id
    ensures o.None? <==> forall k :: 0 <= k < |reqs| ==> reqs[k].id != id
    decreases |reqs|
  {
    if reqs == [] then None
    else if reqs[0].id == id then Some(reqs[0])
    else
      var o := FirstWithId(reqs[1..], id);
      assert forall k :: 1 <= k < |reqs| ==> reqs[k] == reqs[1..][k - 1];
      o
  }

  /** `getRequestWithVotes(requestId)`: the row with that id and its tallies, or nothing. */
  function RequestWithVotes(reqs: seq<Request>, votes: map<nat, Vote>, id: RequestId): (o: Option<RequestRow>)
    ensures o.Some? <==> exists k :: 0 <= k < |reqs| && reqs[k].id == id
    ensures o.Some? ==>
      && o.value.request in reqs && o.value.request.id == id
      && o.value.upvotes == CountVotes(votes, id, Up)
      && o.value.downvotes == CountVotes(votes, id, Down)
  {
    match FirstWithId(reqs, id)
    case None => None
    case Some(r) => Some(RequestRow(r, CountVotes(votes, id, Up), CountVotes(votes, id, Down)))
  }

  /** `MAX(queue_position)` over the event's accepted requests; NULL when no such position exists. */
  function MaxPosition(reqs: seq<Request>, eventId: EventId): (m: Option<nat>)
    ensures m.None? <==> forall x :: x in reqs && InQueueOf(x, eventId) ==> x.position.None?
    ensures m.Some? ==>
      && (exists x :: x in reqs && InQueueOf(x, eventId) && x.position == Some(m.value))
      && (forall x :: x in reqs && InQueueOf(x, eventId) && x.position.Some? ==> x.position.value <= m.value)
    decreases |reqs|
  {
    if reqs == [] then None
    else
      var rest := MaxPosition(reqs[1..], eventId);
      assert reqs == [reqs[0]] + reqs[1..];
      var here := if InQueueOf(reqs[0], eventId) then reqs[0].position else None;
      match (here, rest)
      case (None, _) => rest
      case (Some(p), None) => Some(p)
      case (Some(p), Some(q)) => Some(if p >= q then p else q)
  }

  /** `getNextQueuePosition(eventId)`: `(MAX(queue_position) || 0) + 1`. */
  function NextQueuePosition(reqs: seq<Request>, eventId: EventId): (p: nat)
    ensures p >= 1
    ensures forall x :: x in reqs && InQueueOf(x, eventId) && x.position.Some? ==> x.position.value < p
    ensures p == 1 || exists x :: x in reqs && InQueueOf(x, eventId) && x.position == Some(p - 1)
  {
    match MaxPosition(reqs, eventId)
    case None => 1
    case Some(m) => m + 1
  }

  /** A pending or accepted request of the event for the same track. */
  /** A request that blocks a resubmission: never a rejected or played one, and always one with a URI. */
  predicate LiveMatch(r: Request, eventId: EventId, uri: string)
    ensures LiveMatch(r, eventId, uri) ==> r.status != Rejected && r.status != Played && r.spotifyUri.Some?
  {
    r.eventId == eventId && r.spotifyUri == Some(uri) && (r.status == Pending || r.status == Accepted)
  }

  function FirstLiveMatch(reqs: seq<Request>, eventId: EventId, uri: string): (o: Option<Request>)
    ensures o.Some? ==> o.value in reqs && LiveMatch(o.value, eventId, uri)
    ensures o.None? <==> forall x :: x in reqs ==> !LiveMatch(x, eventId, uri)
    decreases |reqs|
  {
    if reqs == [] then None
    else if LiveMatch(reqs[0], eventId, uri) then Some(reqs[0])
    else
      assert reqs == [reqs[0]] + reqs[1..];
      FirstLiveMatch(reqs[1..], eventId, uri)
  }

  /**
   * `checkDuplicate(eventId, spotifyUri)`: a missing or empty URI is never a
   * duplicate; otherwise a duplicate exactly when a pending or accepted request
   * of the event has that URI, located in the queue when the match is accepted.
   */
  function CheckDuplicate(reqs: seq<Request>, eventId: EventId, uri: Option<string>): (d: DuplicateCheck)
    ensures uri.None? || uri.value == "" ==> d == NotDuplicate
    ensures d.Duplicate? <==> uri.Some? && uri.value != "" && exists x :: x in reqs && LiveMatch(x, eventId, uri.value)
    ensures d.Duplicate? ==>
      && d.song in reqs && LiveMatch(d.song, eventId, uri.value)
      && (d.location == InQueue <==> d.song.status == Accepted)
  {
    if uri.None? || uri.value == "" then NotDuplicate
    else
      match FirstLiveMatch(reqs, eventId, uri.value)
      case None => NotDuplicate
      case Some(r) => Duplicate(if r.status == Accepted then InQueue else InPending, r)
  }
}
