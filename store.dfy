/**
 * The persisted tables of the request engine (events, requests, votes and
 * rate_limits), their row types, and the row updates that the SQL
 * `UPDATE requests ... WHERE id = ?` statements perform.
 */
module Store {

  import opened Sorting

  datatype Option<+T> = None | Some(value: T)

  type EventId = string
  type RequestId = string
  type SocketId = string
  /** DJ accounts have numeric ids; 0 is falsy in JavaScript. */
  type DjId = nat

  datatype Status = Pending | Accepted | Rejected | Played

  datatype VoteType = Up | Down

  /** A track descriptor as the client sends it (`songData`). */
  datatype SongData = SongData(
    name: string,
    artist: string,
    album: Option<string>,
    image: string,
    uri: Option<string>,
    durationMs: Option<int>,
    preview: Option<string>,
    previewUrl: Option<string>)

  /** A row of the `requests` table. */
  datatype Request = Request(
    id: RequestId,
    eventId: EventId,
    socketId: SocketId,
    userName: string,
    songName: string,
    artist: string,
    album: Option<string>,
    imageUrl: string,
    spotifyUri: Option<string>,
    durationMs: Option<int>,
    previewUrl: Option<string>,
    status: Status,
    position: Option<nat>,
    playedAt: Option<int>,
    createdAt: int)

  /** A row of the `votes` table; the table is keyed by its auto-increment id. */
  datatype Vote = Vote(requestId: RequestId, socketId: SocketId, voteType: VoteType)

  /** A row of the `events` table. */
  datatype Event = Event(
    id: EventId,
    name: string,
    djId: Option<DjId>,
    allowDuplicates: bool,
    votesEnabled: bool,
    autoAcceptEnabled: bool,
    rateLimitMax: int,
    rateLimitWindowMinutes: int,
    createdAt: int,
    endedAt: Option<int>)

  /** A row of the `rate_limits` table, keyed by socket id. */
  datatype Counter = Counter(requestCount: nat, resetAt: int)

  /** JavaScript `x || fallback` on an optional string: missing and "" are falsy. */
  function OrDefault(x: Option<string>, fallback: string): (r: string)
    ensures x.Some? && x.value != "" ==> r == x.value
    ensures x.None? || x.value == "" ==> r == fallback
  {
    if x.Some? && x.value != "" then x.value else fallback
  }

  function Ids(s: seq<Request>): (r: seq<RequestId>)
    ensures |r| == |s|
    ensures forall k :: 0 <= k < |s| ==> r[k] == s[k].id
  {
    seq(|s|, k requires 0 <= k < |s| => s[k].id)
  }

  /** The `id` column is a primary key. */
  predicate UniqueIds(s: seq<Request>) {
    Distinct(Ids(s))
  }

  /** Appending a row under a fresh id keeps the primary key. */
  lemma AppendKeepsUnique(reqs: seq<Request>, x: Request)
    requires UniqueIds(reqs)
    requires x.id !in Ids(reqs)
    ensures UniqueIds(reqs + [x])
  {
    var r := reqs + [x];
    forall i, j | 0 <= i < j < |r| ensures Ids(r)[i] != Ids(r)[j] {
      if j == |reqs| {
        assert Ids(reqs)[i] == reqs[i].id;
      } else {
        assert Ids(reqs)[i] != Ids(reqs)[j];
      }
    }
  }

  /** Under the primary key, two rows with one id are the same row. */
  lemma SameIdSameRow(reqs: seq<Request>, x: Request, y: Request)
    requires UniqueIds(reqs)
    requires x in reqs && y in reqs && x.id == y.id
    ensures x == y
  {
    var i :| 0 <= i < |reqs| && reqs[i] == x;
    var j :| 0 <= j < |reqs| && reqs[j] == y;
    assert Ids(reqs)[i] == Ids(reqs)[j];
  }

  /** No voter holds two vote rows for one request. */
  predicate AtMostOneVotePerVoter(votes: map<nat, Vote>) {
    forall a, b :: a in votes && b in votes && a != b ==>
      !(votes[a].requestId == votes[b].requestId && votes[a].socketId == votes[b].socketId)
  }

  /** Every vote row id is below the next auto-increment value. */
  predicate KeysBelow(votes: map<nat, Vote>, nextId: nat) {
    forall k :: k in votes ==> k < nextId
  }

  /** Every accepted request carries a queue position. */
  predicate AcceptedArePositioned(reqs: seq<Request>) {
    forall k :: 0 <= k < |reqs| && reqs[k].status == Accepted ==> reqs[k].position.Some?
  }

  /** `UPDATE requests SET status = 'accepted', queue_position = p WHERE id = id`. */
  function SetAccepted(reqs: seq<Request>, id: RequestId, p: nat): (r: seq<Request>)
    ensures |r| == |reqs|
    ensures forall k :: 0 <= k < |reqs| ==>
      r[k] == if reqs[k].id == id then reqs[k].(status := Accepted, position := Some(p)) else reqs[k]
  {
    seq(|reqs|, k requires 0 <= k < |reqs| =>
      if reqs[k].id == id then reqs[k].(status := Accepted, position := Some(p)) else reqs[k])
  }

  /** `UPDATE requests SET status = 'rejected' WHERE id = id`; the position is kept. */
  function SetRejected(reqs: seq<Request>, id: RequestId): (r: seq<Request>)
    ensures |r| == |reqs|
    ensures forall k :: 0 <= k < |reqs| ==>
      r[k] == if reqs[k].id == id then reqs[k].(status := Rejected) else reqs[k]
  {
    seq(|reqs|, k requires 0 <= k < |reqs| =>
      if reqs[k].id == id then reqs[k].(status := Rejected) else reqs[k])
  }

  /** `UPDATE requests SET status = 'played', played_at = NOW(), queue_position = NULL WHERE id = id`. */
  function SetPlayed(reqs: seq<Request>, id: RequestId, now: int): (r: seq<Request>)
    ensures |r| == |reqs|
    ensures forall k :: 0 <= k < |reqs| ==>
      r[k] == if reqs[k].id == id then reqs[k].(status := Played, playedAt := Some(now), position := None) else reqs[k]
  {
    seq(|reqs|, k requires 0 <= k < |reqs| =>
      if reqs[k].id == id then reqs[k].(status := Played, playedAt := Some(now), position := None) else reqs[k])
  }

  /** `UPDATE requests SET queue_position = p WHERE id = id`, whatever the status. */
  function SetPosition(reqs: seq<Request>, id: RequestId, p: nat): (r: seq<Request>)
    ensures |r| == |reqs|
    ensures forall k :: 0 <= k < |reqs| ==>
      r[k] == if reqs[k].id == id then reqs[k].(position := Some(p)) else reqs[k]
  {
    seq(|reqs|, k requires 0 <= k < |reqs| =>
      if reqs[k].id == id then reqs[k].(position := Some(p)) else reqs[k])
  }

  /** The relational store behind the engine, one field per table. */
  class Database {
    var events: map<EventId, Event>
    var requests: seq<Request>
    var votes: map<nat, Vote>
    var nextVoteId: nat
    var rateLimits: map<SocketId, Counter>

    /** Table invariants the handlers rely on and preserve. */
    ghost predicate Valid()
      reads this
    {
      && UniqueIds(requests)
      && AcceptedArePositioned(requests)
      && KeysBelow(votes, nextVoteId)
      && AtMostOneVotePerVoter(votes)
      && (forall e :: e in events ==> events[e].id == e)
      && (forall e :: e in events ==> events[e].rateLimitWindowMinutes >= 1)
    }

    constructor ()
      ensures Valid()
      ensures events == map[] && requests == [] && votes == map[] && rateLimits == map[]
    {
      events := map[];
      requests := [];
      votes := map[];
      nextVoteId := 0;
      rateLimits := map[];
    }
  }
}
