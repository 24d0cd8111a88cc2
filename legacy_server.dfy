/**
 * The earlier in-memory prototype: two module-level dictionaries of mutable
 * objects, events (each holding its queue array) and requests. Accepting
 * pushes the very request object onto the queue, so a later status change is
 * visible through the queue too.
 */
module LegacyServer {

  import opened Store

  /** A request object; only its `status` is ever reassigned. */
  class LegacyRequest {
    const id: RequestId
    const songName: string
    const artist: string
    const album: Option<string>
    const image: string
    const uri: Option<string>
    const durationMs: Option<int>
    const userName: string
    const createdAt: int
    const socketId: SocketId
    var status: Status

    constructor (id: RequestId, song: SongData, userName: Option<string>, socketId: SocketId, now: int)
      ensures this.id == id && songName == song.name && artist == song.artist && album == song.album
      ensures image == song.image && uri == song.uri && durationMs == song.durationMs
      ensures this.userName == OrDefault(userName, "Anonyme") && createdAt == now && this.socketId == socketId
      ensures status == Pending
    {
      this.id := id;
      songName := song.name;
      artist := song.artist;
      album := song.album;
      image := song.image;
      uri := song.uri;
      durationMs := song.durationMs;
      this.userName := OrDefault(userName, "Anonyme");
      createdAt := now;
      this.socketId := socketId;
      status := Pending;
    }
  }

  /** An event object and its queue array. */
  class LegacyEvent {
    const id: EventId
    const name: string
    const createdAt: int
    var queue: seq<LegacyRequest>

    constructor (id: EventId, name: Option<string>, now: int)
      ensures this.id == id && this.name == OrDefault(name, "Soirée Gym") && createdAt == now
      ensures queue == []
    {
      this.id := id;
      this.name := OrDefault(name, "Soirée Gym");
      createdAt := now;
      queue := [];
    }
  }

  /** `queue.filter(r => r.id !== id)`. */
  function WithoutId(q: seq<LegacyRequest>, id: RequestId): (r: seq<LegacyRequest>)
    ensures forall i :: 0 <= i < |r| ==> r[i] in q && r[i].id != id
    ensures forall i :: 0 <= i < |q| && q[i].id != id ==> q[i] in r
    ensures |r| <= |q|
  {
    if q == [] then []
    else
      var rest := WithoutId(q[1..], id);
      assert q == [q[0]] + q[1..];
      if q[0].id != id then [q[0]] + rest else rest
  }

  /** The filter works entry by entry, so it keeps the relative order of what it keeps. */
  lemma {:induction false} WithoutIdDistributes(a: seq<LegacyRequest>, b: seq<LegacyRequest>, id: RequestId)
    ensures WithoutId(a + b, id) == WithoutId(a, id) + WithoutId(b, id)
  {
    if a != [] {
      assert (a + b)[0] == a[0] && (a + b)[1..] == a[1..] + b;
      WithoutIdDistributes(a[1..], b, id);
      var head := if a[0].id != id then [a[0]] else [];
      assert WithoutId(a, id) == head + WithoutId(a[1..], id);
      assert WithoutId(a + b, id) == head + WithoutId((a + b)[1..], id);
    } else {
      assert a + b == b;
    }
  }

  /** A queue with no entry of that id is left as it is; so filtering twice is filtering once. */
  lemma {:induction false} WithoutAbsentId(q: seq<LegacyRequest>, id: RequestId)
    requires forall i :: 0 <= i < |q| ==> q[i].id != id
    ensures WithoutId(q, id) == q
  {
    if q != [] {
      WithoutAbsentId(q[1..], id);
      assert q == [q[0]] + q[1..];
    }
  }

  lemma WithoutIdIdempotent(q: seq<LegacyRequest>, id: RequestId)
    ensures WithoutId(WithoutId(q, id), id) == WithoutId(q, id)
  {
    var r := WithoutId(q, id);
    WithoutAbsentId(r, id);
  }

  /** Playing a request right after it was accepted leaves the queue as it was without that request. */
  lemma AcceptThenPlay(q: seq<LegacyRequest>, r: LegacyRequest)
    ensures WithoutId(q + [r], r.id) == WithoutId(q, r.id)
  {
    WithoutIdDistributes(q, [r], r.id);
    assert WithoutId([r], r.id) == [];
  }

  class Server {
    var events: map<EventId, LegacyEvent>
    var requests: map<RequestId, LegacyRequest>

    constructor ()
      ensures events == map[] && requests == map[]
    {
      events := map[];
      requests := map[];
    }

    /** `POST /api/events`: a new event object with an empty queue, stored under `eventId`. */
    method CreateEvent(eventId: EventId, name: Option<string>, now: int) returns (ev: LegacyEvent)
      modifies this`events
      ensures fresh(ev)
      ensures events == old(events)[eventId := ev]
      ensures ev.id == eventId && ev.name == OrDefault(name, "Soirée Gym") && ev.createdAt == now && ev.queue == []
    {
      ev := new LegacyEvent(eventId, name, now);
      events := events[eventId := ev];
    }

    /**
     * `request-song`: nothing for an unknown event; otherwise a pending
     * request object under `requestId` (the event id is not recorded on it).
     */
    method RequestSong(eventId: EventId, socketId: SocketId, song: SongData, userName: Option<string>, requestId: RequestId, now: int)
      returns (created: Option<LegacyRequest>)
      modifies this`requests
      ensures eventId !in events ==> created.None? && requests == old(requests)
      ensures eventId in events ==>
        && created.Some? && fresh(created.value)
        && requests == old(requests)[requestId := created.value]
        && created.value.id == requestId && created.value.status == Pending
        && created.value.userName == OrDefault(userName, "Anonyme")
        && created.value.socketId == socketId && created.value.uri == song.uri
        && created.value.songName == song.name && created.value.artist == song.artist
        && created.value.album == song.album && created.value.image == song.image
        && created.value.durationMs == song.durationMs && created.value.createdAt == now
    {
      if eventId !in events {
        return None;
      }
      var request := new LegacyRequest(requestId, song, userName, socketId, now);
      requests := requests[requestId := request];
      return Some(request);
    }

    /**
     * `accept-request`: nothing when the request or the event is missing;
     * otherwise the request object is marked accepted and pushed onto the
     * event's queue, and its position is the new queue length.
     */
    method AcceptRequest(eventId: EventId, requestId: RequestId) returns (position: Option<nat>)
      modifies requests.Values, events.Values
      ensures requestId !in requests || eventId !in events ==>
        && position.None?
        && (forall r :: r in requests.Values ==> r.status == old(r.status))
        && (forall e :: e in events.Values ==> e.queue == old(e.queue))
      ensures requestId in requests && eventId in events ==>
        var r := requests[requestId];
        var ev := events[eventId];
        && r.status == Accepted
        && ev.queue == old(ev.queue) + [r]
        && position == Some(|ev.queue|)
        && (forall x :: x in requests.Values && x != r ==> x.status == old(x.status))
        && (forall e :: e in events.Values && e != ev ==> e.queue == old(e.queue))
    {
      if requestId !in requests || eventId !in events {
        return None;
      }
      var r := requests[requestId];
      var ev := events[eventId];
      r.status := Accepted;
      ev.queue := ev.queue + [r];
      position := Some(|ev.queue|);
    }

    /** `reject-request`: the request object is marked rejected; no event is looked up and no queue changes. */
    method RejectRequest(eventId: EventId, requestId: RequestId) returns (rejected: bool)
      modifies requests.Values
      ensures rejected <==> requestId in requests
      ensures rejected ==> requests[requestId].status == Rejected
      ensures forall x :: x in requests.Values && (!rejected || x != requests[requestId]) ==> x.status == old(x.status)
    {
      if requestId !in requests {
        return false;
      }
      requests[requestId].status := Rejected;
      return true;
    }

    /**
     * `reorder-queue`: the event's queue becomes exactly the supplied list.
     * The list comes from the socket payload, so its objects are newly
     * decoded and never the stored request objects: after a reorder the
     * queue no longer shares objects with `requests`.
     */
    method ReorderQueue(eventId: EventId, newQueue: seq<LegacyRequest>)
      requires forall x :: x in newQueue ==> x !in requests.Values
      modifies events.Values
      ensures eventId in events ==> events[eventId].queue == newQueue
      ensures forall e :: e in events.Values && (eventId !in events || e != events[eventId]) ==> e.queue == old(e.queue)
    {
      if eventId in events {
        events[eventId].queue := newQueue;
      }
    }

    /**
     * `mark-played`: every queue entry with that id is dropped, the rest keep
     * their order; the request's status is not touched.
     */
    method MarkPlayed(eventId: EventId, requestId: RequestId)
      modifies events.Values
      ensures eventId in events ==> events[eventId].queue == WithoutId(old(events[eventId].queue), requestId)
      ensures forall e :: e in events.Values && (eventId !in events || e != events[eventId]) ==> e.queue == old(e.queue)
    {
      if eventId in events {
        var ev := events[eventId];
        ev.queue := WithoutId(ev.queue, requestId);
      }
    }
  }
}
