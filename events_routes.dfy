/**
 * The HTTP routes that read or write the queue outside the socket handlers:
 * the pending list, the DJ's direct add (an accepted insert that skips the
 * rate limit and the duplicate check) and the end of an event.
 */
module EventsRoutes {

  import opened Sorting
  import opened Store
  import opened QueueService
  import opened EventHandlers
  import opened EventsController

  function CreatedAt(r: Request): int {
    r.createdAt
  }

  /** `GET /:eventId/pending`: the event's pending requests, oldest first. */
  function PendingList(reqs: seq<Request>, eventId: EventId): (p: seq<Request>)
    ensures forall x :: x in p <==> x in reqs && x.eventId == eventId && x.status == Pending
    ensures multiset(p) == multiset(OfStatus(reqs, eventId, Pending))
    ensures |p| == EventStats(reqs, eventId).pending
    ensures forall i, j :: 0 <= i < j < |p| ==> p[i].createdAt <= p[j].createdAt
  {
    var p := SortBy(OfStatus(reqs, eventId, Pending), CreatedAt);
    assert forall x :: x in p <==> x in multiset(p);
    assert forall x :: x in OfStatus(reqs, eventId, Pending) <==> x in multiset(OfStatus(reqs, eventId, Pending));
    p
  }

  /** The row the DJ's direct add inserts: accepted at `position`, from `dj-interface`, user `DJ` by default. */
  function DjRow(requestId: RequestId, eventId: EventId, userName: Option<string>, song: SongData, position: nat, now: int): (r: Request)
    ensures r.id == requestId && InQueueOf(r, eventId) && r.position == Some(position)
    ensures r.socketId == "dj-interface"
    ensures r.userName != "" && (userName.Some? && userName.value != "" ==> r.userName == userName.value)
    ensures r.album == song.album && r.durationMs == song.durationMs && r.previewUrl == song.previewUrl
    ensures r.playedAt.None? && r.createdAt == now
  {
    Request(requestId, eventId, "dj-interface", OrDefault(userName, "DJ"), song.name, song.artist,
      song.album, song.image, song.uri, song.durationMs, song.previewUrl, Accepted, Some(position), None, now)
  }

  datatype AddOutcome =
    | AddNotFound
    | AddDone(requestId: RequestId, position: nat, queue: seq<QueueRow>)

  /**
   * `POST /:eventId/add-song-dj`: 404 for an unknown event; otherwise one
   * accepted row at the next queue position, whatever the rate limits and
   * whatever requests for the same track exist.
   */
  method AddSongDj(db: Database, eventId: EventId, userName: Option<string>, song: SongData, requestId: RequestId, now: int)
    returns (o: AddOutcome)
    requires db.Valid()
    requires requestId !in Ids(db.requests)
    modifies db`requests
    ensures db.Valid()
    ensures eventId !in old(db.events) ==> o == AddNotFound && db.requests == old(db.requests)
    ensures eventId in old(db.events) ==>
      var p := NextQueuePosition(old(db.requests), eventId);
      && db.requests == old(db.requests) + [DjRow(requestId, eventId, userName, song, p, now)]
      && o == AddDone(requestId, p, QueueWithVotes(db.requests, db.votes, eventId))
  {
    if eventId !in db.events {
      return AddNotFound;
    }
    var queuePosition := NextQueuePosition(db.requests, eventId);
    var row := DjRow(requestId, eventId, userName, song, queuePosition, now);
    AppendKeepsUnique(db.requests, row);
    AppendKeepsPositioned(db.requests, row);
    db.requests := db.requests + [row];
    var queue := QueueWithVotes(db.requests, db.votes, eventId);
    return AddDone(requestId, queuePosition, queue);
  }

  /** A direct add joins the back of the queue: the new row is the last row of the queue read afterwards. */
  lemma {:induction false} DjAddJoinsBack(
    reqs: seq<Request>, votes: map<nat, Vote>, eventId: EventId, userName: Option<string>,
    song: SongData, requestId: RequestId, now: int)
    requires UniqueIds(reqs) && requestId !in Ids(reqs)
    ensures var p := NextQueuePosition(reqs, eventId);
      var x := DjRow(requestId, eventId, userName, song, p, now);
      var q := QueueWithVotes(reqs + [x], votes, eventId);
      && |q| == |AcceptedOf(reqs, eventId)| + 1
      && q[|q| - 1].request == x
  {
    var p := NextQueuePosition(reqs, eventId);
    var x := DjRow(requestId, eventId, userName, song, p, now);
    var after := reqs + [x];
    AppendKeepsUnique(reqs, x);
    assert x in after;
    forall y | y in after && InQueueOf(y, eventId) && y.id != x.id ensures PositionKey(y) < PositionKey(x) {
      assert y in reqs;
    }
    AboveOthersIsLast(after, votes, x);
    AcceptedOfAppend(reqs, x, eventId);
  }

  lemma {:induction false} AcceptedOfAppend(reqs: seq<Request>, x: Request, eventId: EventId)
    requires InQueueOf(x, eventId)
    ensures AcceptedOf(reqs + [x], eventId) == AcceptedOf(reqs, eventId) + [x]
  {
    if reqs != [] {
      assert (reqs + [x])[1..] == reqs[1..] + [x];
      AcceptedOfAppend(reqs[1..], x, eventId);
    }
  }

  lemma AppendKeepsPositioned(reqs: seq<Request>, x: Request)
    requires AcceptedArePositioned(reqs)
    requires x.position.Some?
    ensures AcceptedArePositioned(reqs + [x])
  {
    var r := reqs + [x];
    forall k | 0 <= k < |r| && r[k].status == Accepted ensures r[k].position.Some? {
      if k < |reqs| {
        assert r[k] == reqs[k];
      }
    }
  }

  datatype EndOutcome = EndNotFound | Ended(stats: Stats)

  /** `POST /:eventId/end`: 404 for an unknown event, else the counts taken first and `ended_at` stamped now. */
  method EndEvent(db: Database, eventId: EventId, now: int) returns (o: EndOutcome)
    requires db.Valid()
    modifies db`events
    ensures db.Valid()
    ensures eventId !in old(db.events) ==> o == EndNotFound && db.events == old(db.events)
    ensures eventId in old(db.events) ==>
      && db.events == old(db.events)[eventId := old(db.events)[eventId].(endedAt := Some(now))]
      && o == Ended(EventStats(db.requests, eventId))
  {
    if eventId !in db.events {
      return EndNotFound;
    }
    var stats := EventStats(db.requests, eventId);
    db.events := db.events[eventId := db.events[eventId].(endedAt := Some(now))];
    return Ended(stats);
  }
}
