/**
 * The socket handlers of the request engine, each one atomic step over the
 * tables: joining an event, submitting a song (rate limit, event lookup,
 * duplicate check, auto-accept, insert, increment), voting, and the DJ's
 * accept, reject, reorder, mark-played and settings update.
 */
module EventHandlers {

  import opened Sorting
  import opened Store
  import opened QueueService
  import opened RateLimitService
  import opened VoteLedger
  import opened Reorder

  /** `join-event`: reports the socket's rate-limit status; the rate-limit check itself may create or reset the row. */
  method JoinEvent(db: Database, socketId: SocketId, eventId: EventId, now: int) returns (status: CheckResult)
    requires db.Valid()
    modifies db`rateLimits
    ensures db.Valid()
    ensures var s := GetRateLimitSettings(db.events, eventId);
      && status == Verdict(Lookup(old(db.rateLimits), socketId), s, now)
      && db.rateLimits == AfterCheck(old(db.rateLimits), socketId, s, now)
  {
    status := CheckRateLimit(db, socketId, eventId, now);
  }

  /** What the submitter is told: one of the three refusals, or `request-created`. */
  datatype SubmitOutcome =
    | RateLimited(remainingTime: int)
    | EventNotFound
    | DuplicateSong(location: Location)
    | Created(requestId: RequestId, status: Status, position: Option<nat>, rateLimitStatus: CheckResult)

  /** JavaScript `x || null` on an optional string. */
  function Truthy(x: Option<string>): (r: Option<string>)
    ensures r.Some? <==> x.Some? && x.value != ""
    ensures r.Some? ==> r == x
  {
    if x.Some? && x.value != "" then x else None
  }

  /** The row `request-song` inserts: no album or duration, the preview only when non-empty. */
  function SubmittedRow(
    requestId: RequestId, eventId: EventId, socketId: SocketId, userName: Option<string>,
    song: SongData, status: Status, position: Option<nat>, now: int): (r: Request)
    ensures r.id == requestId && r.eventId == eventId && r.socketId == socketId
    ensures r.userName != "" && (userName.Some? && userName.value != "" ==> r.userName == userName.value)
    ensures r.previewUrl != Some("") && r.album.None? && r.durationMs.None?
    ensures r.playedAt.None? && r.createdAt == now
  {
    Request(requestId, eventId, socketId, OrDefault(userName, "Anonyme"), song.name, song.artist,
      None, song.image, song.uri, None, Truthy(song.preview), status, position, None, now)
  }

  /** The outcome of a submission and the two tables it may write. */
  datatype Submission = Submission(outcome: SubmitOutcome, requests: seq<Request>, rateLimits: map<SocketId, Counter>)

  /**
   * `request-song`: the rate-limit check first, then the event lookup, the
   * duplicate check when duplicates are not allowed, the initial status from
   * auto-accept (with the next queue position when accepted), the insert, the
   * increment, and a second check whose result is reported.
   */
  function Submit(
    events: map<EventId, Event>, reqs: seq<Request>, rows: map<SocketId, Counter>,
    socketId: SocketId, eventId: EventId, userName: Option<string>, song: SongData,
    requestId: RequestId, now: int): (r: Submission)
    ensures var s := GetRateLimitSettings(events, eventId);
      var check := Verdict(Lookup(rows, socketId), s, now);
      && (r.outcome.RateLimited? <==> check.Denied?)
      && (r.outcome.RateLimited? ==> r.outcome.remainingTime == check.remainingTime && r.rateLimits == rows)
      && (r.outcome.EventNotFound? <==> check.Allowed? && eventId !in events)
      && (r.outcome.DuplicateSong? <==>
            && check.Allowed? && eventId in events && !events[eventId].allowDuplicates
            && CheckDuplicate(reqs, eventId, song.uri).Duplicate?)
      && (r.outcome.DuplicateSong? ==> r.outcome.location == CheckDuplicate(reqs, eventId, song.uri).location)
      && (!r.outcome.Created? ==> r.requests == reqs && r.rateLimits == AfterCheck(rows, socketId, s, now))
    ensures r.outcome.Created? ==>
      && eventId in events
      && var ev := events[eventId];
      && |r.requests| == |reqs| + 1 && r.requests[..|reqs|] == reqs
      && var x := r.requests[|reqs|];
      && x.id == requestId && x.eventId == eventId && x.socketId == socketId
      && x.songName == song.name && x.spotifyUri == song.uri
      && x.status == (if ev.autoAcceptEnabled then Accepted else Pending)
      && x.position == (if ev.autoAcceptEnabled then Some(NextQueuePosition(reqs, eventId)) else None)
      && x == SubmittedRow(requestId, eventId, socketId, userName, song, x.status, x.position, now)
      && x.userName == OrDefault(userName, "Anonyme") && x.previewUrl == Truthy(song.preview) && x.createdAt == now
      && r.outcome == Created(requestId, x.status, x.position, r.outcome.rateLimitStatus)
    ensures r.outcome.Created? && GetRateLimitSettings(events, eventId).windowMinutes >= 1 ==>
      var s := GetRateLimitSettings(events, eventId);
      var check := Verdict(Lookup(rows, socketId), s, now);
      && r.rateLimits == Incremented(AfterCheck(rows, socketId, s, now), socketId)
      && r.rateLimits[socketId].requestCount == check.count + 1
      && r.outcome.rateLimitStatus == Verdict(Lookup(r.rateLimits, socketId), s, now)
  {
    var s := GetRateLimitSettings(events, eventId);
    var check := Verdict(Lookup(rows, socketId), s, now);
    var rows1 := AfterCheck(rows, socketId, s, now);
    if check.Denied? then
      DeniedWritesNothing(rows, socketId, s, now);
      Submission(RateLimited(check.remainingTime), reqs, rows1)
    else if eventId !in events then
      Submission(EventNotFound, reqs, rows1)
    else
      var ev := events[eventId];
      var dup := if ev.allowDuplicates then NotDuplicate else CheckDuplicate(reqs, eventId, song.uri);
      if dup.Duplicate? then
        Submission(DuplicateSong(dup.location), reqs, rows1)
      else
        var status := if ev.autoAcceptEnabled then Accepted else Pending;
        var position := if ev.autoAcceptEnabled then Some(NextQueuePosition(reqs, eventId)) else None;
        var x := SubmittedRow(requestId, eventId, socketId, userName, song, status, position, now);
        var rows2 := Incremented(rows1, socketId);
        var rows3 := AfterCheck(rows2, socketId, s, now);
        assert (reqs + [x])[..|reqs|] == reqs;
        assert s.windowMinutes >= 1 ==>
          rows3 == rows2 && rows2[socketId].requestCount == rows1[socketId].requestCount + 1 by {
          if s.windowMinutes >= 1 {
            SecondCheckIsNoOp(rows, socketId, s, now);
          }
        }
        Submission(Created(requestId, status, position, Verdict(Lookup(rows2, socketId), s, now)), reqs + [x], rows3)
  }

  /** `request-song` from socket `socketId`; `requestId` is the fresh UUID the handler draws. */
  method RequestSong(
    db: Database, socketId: SocketId, eventId: EventId, userName: Option<string>, song: SongData,
    requestId: RequestId, now: int) returns (outcome: SubmitOutcome)
    requires db.Valid()
    requires requestId !in Ids(db.requests)
    modifies db`requests, db`rateLimits
    ensures db.Valid()
    ensures var r := Submit(old(db.events), old(db.requests), old(db.rateLimits), socketId, eventId, userName, song, requestId, now);
      && outcome == r.outcome
      && db.requests == r.requests
      && db.rateLimits == r.rateLimits
  {
    var check := CheckRateLimit(db, socketId, eventId, now);
    if check.Denied? {
      return RateLimited(check.remainingTime);
    }
    if eventId !in db.events {
      return EventNotFound;
    }
    var ev := db.events[eventId];
    if !ev.allowDuplicates {
      var duplicate := CheckDuplicate(db.requests, eventId, song.uri);
      if duplicate.Duplicate? {
        return DuplicateSong(duplicate.location);
      }
    }
    var status := if ev.autoAcceptEnabled then Accepted else Pending;
    var position: Option<nat> := None;
    if status == Accepted {
      position := Some(NextQueuePosition(db.requests, eventId));
    }
    var row := SubmittedRow(requestId, eventId, socketId, userName, song, status, position, now);
    AppendKeepsUnique(db.requests, row);
    db.requests := db.requests + [row];
    IncrementRateLimit(db, socketId);
    var after := CheckRateLimit(db, socketId, eventId, now);
    return Created(requestId, status, position, after);
  }

  /** What the `vote` handler reports: nothing, `vote-error`, or `vote-updated` with the new tallies. */
  datatype VoteOutcome =
    | VoteIgnored
    | VotesDisabled
    | VoteUpdated(requestId: RequestId, upvotes: nat, downvotes: nat)

  /** Only the strings "up" and "down" are vote types. */
  function ParseVoteType(s: string): (t: Option<VoteType>)
    ensures t == Some(Up) <==> s == "up"
    ensures t == Some(Down) <==> s == "down"
  {
    if s == "up" then Some(Up) else if s == "down" then Some(Down) else None
  }

  datatype VoteGate = Ignore | Disabled | Proceed(t: VoteType)

  /** The checks before the ledger: a known vote type, an accepted request, an event with votes enabled. */
  function GateVote(events: map<EventId, Event>, reqs: seq<Request>, requestId: RequestId, voteType: string): (g: VoteGate)
    ensures g == Ignore <==>
      ParseVoteType(voteType).None? || forall x :: x in reqs && x.id == requestId ==> x.status != Accepted
    ensures g == Disabled <==>
      && ParseVoteType(voteType).Some?
      && (exists x :: x in reqs && x.id == requestId && x.status == Accepted
           && (x.eventId !in events || !events[x.eventId].votesEnabled))
    ensures g.Proceed? ==>
      && ParseVoteType(voteType) == Some(g.t)
      && (exists x :: x in reqs && x.id == requestId && x.status == Accepted
           && x.eventId in events && events[x.eventId].votesEnabled)
    requires UniqueIds(reqs)
  {
    var t := ParseVoteType(voteType);
    var found := FirstWithId(reqs, requestId);
    if t.None? || found.None? || found.value.status != Accepted then
      assert t.Some? && found.Some? ==> forall x :: x in reqs && x.id == requestId ==> x.status != Accepted by {
        if t.Some? && found.Some? {
          forall x | x in reqs && x.id == requestId ensures x.status != Accepted {
            SameIdSameRow(reqs, x, found.value);
          }
        }
      }
      Ignore
    else
      var e := found.value.eventId;
      if e !in events || !events[e].votesEnabled then Disabled else Proceed(t.value)
  }

  /** `vote` from socket `socketId`. */
  method CastVote(db: Database, socketId: SocketId, requestId: RequestId, voteType: string) returns (o: VoteOutcome)
    requires db.Valid()
    modifies db`votes, db`nextVoteId
    ensures db.Valid()
    ensures var g := GateVote(db.events, db.requests, requestId, voteType);
      && (g == Ignore ==> o == VoteIgnored)
      && (g == Disabled ==> o == VotesDisabled)
      && (!g.Proceed? ==> db.votes == old(db.votes) && db.nextVoteId == old(db.nextVoteId))
      && (g.Proceed? ==>
            && db.votes == Toggled(old(db.votes), old(db.nextVoteId), requestId, socketId, g.t)
            && db.nextVoteId == NextIdAfter(old(db.votes), old(db.nextVoteId), requestId, socketId)
            && o == VoteUpdated(requestId, CountVotes(db.votes, requestId, Up), CountVotes(db.votes, requestId, Down)))
  {
    var t := ParseVoteType(voteType);
    if t.None? {
      return VoteIgnored;
    }
    var found := FirstWithId(db.requests, requestId);
    if found.None? || found.value.status != Accepted {
      return VoteIgnored;
    }
    var eventId := found.value.eventId;
    if eventId !in db.events || !db.events[eventId].votesEnabled {
      return VotesDisabled;
    }
    ToggleKeepsLedger(db.votes, db.nextVoteId, requestId, socketId, t.value);
    if exists k :: k in db.votes && Casts(db.votes[k], requestId, socketId) {
      var k :| k in db.votes && Casts(db.votes[k], requestId, socketId);
      ToggleRow(db.votes, db.nextVoteId, requestId, socketId, t.value, k);
      if db.votes[k].voteType == t.value {
        db.votes := db.votes - {k};
      } else {
        db.votes := db.votes[k := db.votes[k].(voteType := t.value)];
      }
    } else {
      db.votes := db.votes[db.nextVoteId := Vote(requestId, socketId, t.value)];
      db.nextVoteId := db.nextVoteId + 1;
    }
    return VoteUpdated(requestId, CountVotes(db.votes, requestId, Up), CountVotes(db.votes, requestId, Down));
  }

  /** What `accept-request` reports: nothing for an unknown id, else the new position, the submitter and the queue. */
  datatype AcceptOutcome =
    | AcceptIgnored
    | AcceptDone(eventId: EventId, position: nat, submitter: SocketId, queue: seq<QueueRow>)

  /** Accepting keeps the primary key and the positioned-accepted rule. */
  lemma AcceptKeepsTables(reqs: seq<Request>, id: RequestId, p: nat)
    requires UniqueIds(reqs) && AcceptedArePositioned(reqs)
    ensures Ids(SetAccepted(reqs, id, p)) == Ids(reqs)
    ensures UniqueIds(SetAccepted(reqs, id, p)) && AcceptedArePositioned(SetAccepted(reqs, id, p))
  {
    assert Ids(SetAccepted(reqs, id, p)) == Ids(reqs);
  }

  /** Rejecting keeps the primary key and the positioned-accepted rule. */
  lemma RejectKeepsTables(reqs: seq<Request>, id: RequestId)
    requires UniqueIds(reqs) && AcceptedArePositioned(reqs)
    ensures Ids(SetRejected(reqs, id)) == Ids(reqs)
    ensures UniqueIds(SetRejected(reqs, id)) && AcceptedArePositioned(SetRejected(reqs, id))
  {
    assert Ids(SetRejected(reqs, id)) == Ids(reqs);
  }

  /** Marking played keeps the primary key and the positioned-accepted rule. */
  lemma PlayedKeepsTables(reqs: seq<Request>, id: RequestId, now: int)
    requires UniqueIds(reqs) && AcceptedArePositioned(reqs)
    ensures Ids(SetPlayed(reqs, id, now)) == Ids(reqs)
    ensures UniqueIds(SetPlayed(reqs, id, now)) && AcceptedArePositioned(SetPlayed(reqs, id, now))
  {
    assert Ids(SetPlayed(reqs, id, now)) == Ids(reqs);
  }

  /** Repositioning keeps the primary key and the positioned-accepted rule. */
  lemma PositionKeepsTables(reqs: seq<Request>, id: RequestId, p: nat)
    requires UniqueIds(reqs) && AcceptedArePositioned(reqs)
    ensures Ids(SetPosition(reqs, id, p)) == Ids(reqs)
    ensures UniqueIds(SetPosition(reqs, id, p)) && AcceptedArePositioned(SetPosition(reqs, id, p))
  {
    assert Ids(SetPosition(reqs, id, p)) == Ids(reqs);
  }

  /** `accept-request`: whatever the request's status, it becomes accepted at its event's next position. */
  method AcceptRequest(db: Database, requestId: RequestId) returns (o: AcceptOutcome)
    requires db.Valid()
    modifies db`requests
    ensures db.Valid()
    ensures match FirstWithId(old(db.requests), requestId)
      case None => o == AcceptIgnored && db.requests == old(db.requests)
      case Some(r) =>
        var p := NextQueuePosition(old(db.requests), r.eventId);
        && db.requests == SetAccepted(old(db.requests), requestId, p)
        && o == AcceptDone(r.eventId, p, r.socketId, QueueWithVotes(db.requests, db.votes, r.eventId))
  {
    var found := FirstWithId(db.requests, requestId);
    if found.None? {
      return AcceptIgnored;
    }
    var eventId := found.value.eventId;
    var newPosition := NextQueuePosition(db.requests, eventId);
    AcceptKeepsTables(db.requests, requestId, newPosition);
    db.requests := SetAccepted(db.requests, requestId, newPosition);
    var queue := QueueWithVotes(db.requests, db.votes, eventId);
    return AcceptDone(eventId, newPosition, found.value.socketId, queue);
  }

  /** After an accept, every other queued request of the event sorts strictly before the accepted one. */
  lemma AcceptedAboveOthers(reqs: seq<Request>, r: Request)
    requires AcceptedArePositioned(reqs)
    ensures var p := NextQueuePosition(reqs, r.eventId);
      var after := SetAccepted(reqs, r.id, p);
      forall x :: x in after && InQueueOf(x, r.eventId) && x.id != r.id ==>
        x.position.Some? && x.position.value < p && PositionKey(x) < p
  {
    var p := NextQueuePosition(reqs, r.eventId);
    var after := SetAccepted(reqs, r.id, p);
    forall x | x in after && InQueueOf(x, r.eventId) && x.id != r.id
      ensures x.position.Some? && x.position.value < p && PositionKey(x) < p
    {
      var m :| 0 <= m < |after| && after[m] == x;
      assert reqs[m] == x;
    }
  }

  /** In rows sorted by position, a row whose key is above every other row's is the last one. */
  lemma MaxKeyIsLast(q: seq<QueueRow>, i: nat)
    requires i < |q|
    requires forall a, b :: 0 <= a < b < |q| ==> PositionKey(q[a].request) <= PositionKey(q[b].request)
    requires forall j :: 0 <= j < |q| && j != i ==> PositionKey(q[j].request) < PositionKey(q[i].request)
    ensures i == |q| - 1
  {
    var lastKey := PositionKey(q[|q| - 1].request);
    assert forall j :: 0 <= j < |q| ==> PositionKey(q[j].request) <= lastKey;
  }

  /** A queued request whose position is above every other queued request of its event is the last queue row. */
  lemma {:induction false} AboveOthersIsLast(reqs: seq<Request>, votes: map<nat, Vote>, target: Request)
    requires UniqueIds(reqs)
    requires target in reqs && InQueueOf(target, target.eventId)
    requires forall x :: x in reqs && InQueueOf(x, target.eventId) && x.id != target.id ==> PositionKey(x) < PositionKey(target)
    ensures var q := QueueWithVotes(reqs, votes, target.eventId);
      |q| >= 1 && q[|q| - 1].request == target
  {
    var q := QueueWithVotes(reqs, votes, target.eventId);
    var i :| 0 <= i < |q| && q[i].request == target;
    forall j | 0 <= j < |q| && j != i ensures PositionKey(q[j].request) < PositionKey(q[i].request) {
      assert q[j].request.id != q[i].request.id;
    }
    MaxKeyIsLast(q, i);
  }

  /**
   * An accepted request joins the back of its event's queue: its position is
   * above every other queued position of the event, and it is the last row of
   * the queue read afterwards.
   */
  lemma {:induction false} AcceptJoinsBack(reqs: seq<Request>, votes: map<nat, Vote>, r: Request)
    requires UniqueIds(reqs) && AcceptedArePositioned(reqs)
    requires r in reqs
    ensures var p := NextQueuePosition(reqs, r.eventId);
      var after := SetAccepted(reqs, r.id, p);
      var q := QueueWithVotes(after, votes, r.eventId);
      && (forall x :: x in after && InQueueOf(x, r.eventId) && x.id != r.id ==> x.position.Some? && x.position.value < p)
      && |q| >= 1
      && q[|q| - 1].request == r.(status := Accepted, position := Some(p))
  {
    var p := NextQueuePosition(reqs, r.eventId);
    var after := SetAccepted(reqs, r.id, p);
    AcceptKeepsTables(reqs, r.id, p);
    AcceptedAboveOthers(reqs, r);
    var k :| 0 <= k < |reqs| && reqs[k] == r;
    var target := r.(status := Accepted, position := Some(p));
    assert after[k] == target;
    AboveOthersIsLast(after, votes, target);
  }

  /** `reject-request`: the status becomes rejected whatever it was; the position is kept. */
  method RejectRequest(db: Database, requestId: RequestId) returns (notify: Option<Request>)
    requires db.Valid()
    modifies db`requests
    ensures db.Valid()
    ensures db.requests == SetRejected(old(db.requests), requestId)
    ensures notify == FirstWithId(db.requests, requestId)
  {
    RejectKeepsTables(db.requests, requestId);
    db.requests := SetRejected(db.requests, requestId);
    notify := FirstWithId(db.requests, requestId);
  }

  /** A rejected request leaves the queue, and every other queued request stays in it. */
  lemma {:induction false} RejectLeavesQueue(reqs: seq<Request>, votes: map<nat, Vote>, eventId: EventId, id: RequestId)
    ensures var q := QueueWithVotes(SetRejected(reqs, id), votes, eventId);
      && (forall i :: 0 <= i < |q| ==> q[i].request.id != id)
      && (forall x :: x in reqs && InQueueOf(x, eventId) && x.id != id ==> exists i :: 0 <= i < |q| && q[i].request == x)
  {
    var after := SetRejected(reqs, id);
    var q := QueueWithVotes(after, votes, eventId);
    forall i | 0 <= i < |q| ensures q[i].request.id != id {
      var m :| 0 <= m < |after| && after[m] == q[i].request;
    }
    forall x | x in reqs && InQueueOf(x, eventId) && x.id != id
      ensures exists i :: 0 <= i < |q| && q[i].request == x
    {
      var m :| 0 <= m < |reqs| && reqs[m] == x;
      assert after[m] == x;
    }
  }

  /** `reorder-queue`: position i + 1 written on the row of the i-th listed id, one row at a time. */
  method ReorderQueue(db: Database, eventId: EventId, newQueue: seq<RequestId>) returns (queue: seq<QueueRow>)
    requires db.Valid()
    modifies db`requests
    ensures db.Valid()
    ensures db.requests == Reordered(old(db.requests), newQueue)
    ensures queue == QueueWithVotes(db.requests, db.votes, eventId)
  {
    var i := 0;
    while i < |newQueue|
      invariant 0 <= i <= |newQueue|
      invariant db.Valid()
      invariant db.requests == Reordered(old(db.requests), newQueue[..i])
    {
      ReorderStep(old(db.requests), newQueue, i);
      PositionKeepsTables(db.requests, newQueue[i], i + 1);
      db.requests := SetPosition(db.requests, newQueue[i], i + 1);
      i := i + 1;
    }
    assert newQueue[..i] == newQueue;
    queue := QueueWithVotes(db.requests, db.votes, eventId);
  }

  /** `mark-played`: played now, position cleared, whatever the status; the queue of `eventId` is reported. */
  method MarkPlayed(db: Database, eventId: EventId, requestId: RequestId, now: int) returns (queue: seq<QueueRow>)
    requires db.Valid()
    modifies db`requests
    ensures db.Valid()
    ensures db.requests == SetPlayed(old(db.requests), requestId, now)
    ensures queue == QueueWithVotes(db.requests, db.votes, eventId)
  {
    PlayedKeepsTables(db.requests, requestId, now);
    db.requests := SetPlayed(db.requests, requestId, now);
    queue := QueueWithVotes(db.requests, db.votes, eventId);
  }

  /**
   * A played request leaves every queue; every other request keeps its row,
   * its position included, so the rest of the queue is the same rows in the
   * same order of positions.
   */
  lemma {:induction false} PlayedLeavesQueue(reqs: seq<Request>, votes: map<nat, Vote>, eventId: EventId, id: RequestId, now: int)
    ensures var after := SetPlayed(reqs, id, now);
      var q := QueueWithVotes(after, votes, eventId);
      && (forall i :: 0 <= i < |q| ==> q[i].request.id != id)
      && (forall k :: 0 <= k < |reqs| && reqs[k].id != id ==> after[k] == reqs[k])
      && (forall x :: x in reqs && InQueueOf(x, eventId) && x.id != id ==> exists i :: 0 <= i < |q| && q[i].request == x)
  {
    var after := SetPlayed(reqs, id, now);
    var q := QueueWithVotes(after, votes, eventId);
    forall i | 0 <= i < |q| ensures q[i].request.id != id {
      var m :| 0 <= m < |after| && after[m] == q[i].request;
    }
    forall x | x in reqs && InQueueOf(x, eventId) && x.id != id
      ensures exists i :: 0 <= i < |q| && q[i].request == x
    {
      var m :| 0 <= m < |reqs| && reqs[m] == x;
      assert after[m] == x;
    }
  }

  /** One `SET` clause of `update-event-settings`. */
  datatype SettingUpdate = VotesEnabledTo(votes: bool) | AutoAcceptTo(autoAccept: bool)

  /** The clauses pushed for the fields the DJ supplied, votes first. */
  function UpdateList(votesEnabled: Option<bool>, autoAccept: Option<bool>): (u: seq<SettingUpdate>)
    ensures |u| == 0 <==> votesEnabled.None? && autoAccept.None?
  {
    (if votesEnabled.Some? then [VotesEnabledTo(votesEnabled.value)] else [])
      + (if autoAccept.Some? then [AutoAcceptTo(autoAccept.value)] else [])
  }

  /** `UPDATE events SET ... WHERE id = ?` with the given clauses, applied in order. */
  function ApplyUpdates(ev: Event, updates: seq<SettingUpdate>): (r: Event)
    ensures r.(votesEnabled := ev.votesEnabled, autoAcceptEnabled := ev.autoAcceptEnabled) == ev
    ensures (forall i :: 0 <= i < |updates| ==> !updates[i].VotesEnabledTo?) ==> r.votesEnabled == ev.votesEnabled
    ensures (forall i :: 0 <= i < |updates| ==> !updates[i].AutoAcceptTo?) ==> r.autoAcceptEnabled == ev.autoAcceptEnabled
    decreases |updates|
  {
    if updates == [] then ev
    else
      var ev1 := match updates[0]
        case VotesEnabledTo(b) => ev.(votesEnabled := b)
        case AutoAcceptTo(b) => ev.(autoAcceptEnabled := b);
      ApplyUpdates(ev1, updates[1..])
  }

  /**
   * A settings update sets exactly the supplied flags and changes nothing
   * else; applying it again changes nothing more.
   */
  lemma SettingsUpdateEffect(ev: Event, votesEnabled: Option<bool>, autoAccept: Option<bool>)
    ensures var r := ApplyUpdates(ev, UpdateList(votesEnabled, autoAccept));
      && r.votesEnabled == (if votesEnabled.Some? then votesEnabled.value else ev.votesEnabled)
      && r.autoAcceptEnabled == (if autoAccept.Some? then autoAccept.value else ev.autoAcceptEnabled)
      && r == ev.(votesEnabled := r.votesEnabled, autoAcceptEnabled := r.autoAcceptEnabled)
      && ApplyUpdates(r, UpdateList(votesEnabled, autoAccept)) == r
  {
    match (votesEnabled, autoAccept)
    case (Some(v), Some(a)) =>
      var u := [VotesEnabledTo(v), AutoAcceptTo(a)];
      assert UpdateList(votesEnabled, autoAccept) == u;
      assert u[1..] == [AutoAcceptTo(a)];
      assert [AutoAcceptTo(a)][1..] == [];
      var r := ev.(votesEnabled := v, autoAcceptEnabled := a);
      assert ApplyUpdates(ev.(votesEnabled := v), [AutoAcceptTo(a)]) == r;
      assert ApplyUpdates(ev, u) == r;
      assert ApplyUpdates(r.(votesEnabled := v), [AutoAcceptTo(a)]) == r;
      assert ApplyUpdates(r, u) == r;
    case (Some(v), None) =>
      assert UpdateList(votesEnabled, autoAccept) == [VotesEnabledTo(v)];
      assert [VotesEnabledTo(v)][1..] == [];
    case (None, Some(a)) =>
      assert UpdateList(votesEnabled, autoAccept) == [AutoAcceptTo(a)];
      assert [AutoAcceptTo(a)][1..] == [];
    case (None, None) =>
      assert UpdateList(votesEnabled, autoAccept) == [];
  }

  /**
   * `update-event-settings`: with at least one flag supplied, the event row is
   * updated (no row when the event is unknown) and the room is notified.
   */
  method UpdateEventSettings(db: Database, eventId: EventId, votesEnabled: Option<bool>, autoAccept: Option<bool>)
    returns (notified: bool)
    requires db.Valid()
    modifies db`events
    ensures db.Valid()
    ensures notified <==> votesEnabled.Some? || autoAccept.Some?
    ensures db.events ==
      if notified && eventId in old(db.events)
      then old(db.events)[eventId := ApplyUpdates(old(db.events)[eventId], UpdateList(votesEnabled, autoAccept))]
      else old(db.events)
  {
    var updates: seq<SettingUpdate> := [];
    if votesEnabled.Some? {
      updates := updates + [VotesEnabledTo(votesEnabled.value)];
    }
    if autoAccept.Some? {
      updates := updates + [AutoAcceptTo(autoAccept.value)];
    }
    assert updates == UpdateList(votesEnabled, autoAccept);
    notified := false;
    if |updates| > 0 {
      if eventId in db.events {
        SettingsUpdateEffect(db.events[eventId], votesEnabled, autoAccept);
        db.events := db.events[eventId := ApplyUpdates(db.events[eventId], updates)];
      }
      notified := true;
    }
  }
}
