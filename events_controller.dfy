/**
 * The event policy endpoints: creating an event with its default policy, the
 * three toggles, the rate-limit update, and the per-status counting behind the
 * event statistics and the owner-only detailed statistics.
 */
module EventsController {

  import opened Store
  import opened QueueService
  import opened RateLimitService
  import opened EventHandlers
  import opened Auth

  /** The row `createEvent` inserts: duplicates refused, votes on, auto-accept off, 3 requests per 15 minutes. */
  function NewEvent(id: EventId, name: string, djId: Option<DjId>, now: int): (ev: Event)
    ensures ev.id == id && ev.name == name && ev.djId == djId && ev.createdAt == now
    ensures !ev.allowDuplicates && ev.votesEnabled && !ev.autoAcceptEnabled
    ensures ev.rateLimitMax == 3 && ev.rateLimitWindowMinutes == 15
    ensures ev.endedAt.None?
  {
    Event(id, name, djId, false, true, false, 3, 15, now, None)
  }

  /** A new event starts with the same limits that apply to an unknown event. */
  lemma NewEventLimitsAreFallback(events: map<EventId, Event>, id: EventId, other: EventId, name: string, djId: Option<DjId>, now: int)
    requires other !in events && other != id
    ensures GetRateLimitSettings(events[id := NewEvent(id, name, djId, now)], id)
      == GetRateLimitSettings(events, other)
      == Settings(3, 15)
  {
  }

  /**
   * `createEvent` for the session's DJ; `eventId` is the fresh UUID the handler draws.
   * The route's sanitizer has already trimmed the name, so callers pass `Trim(name)`
   * (see `EventsValidator.AcceptedNameIsTrimmed`).
   */
  method CreateEvent(db: Database, eventId: EventId, name: string, djId: DjId, now: int) returns (created: EventId)
    requires db.Valid()
    requires eventId !in db.events
    modifies db`events
    ensures db.Valid()
    ensures created == eventId
    ensures db.events == old(db.events)[eventId := NewEvent(eventId, name, Some(djId), now)]
  {
    db.events := db.events[eventId := NewEvent(eventId, name, Some(djId), now)];
    created := eventId;
  }

  /** `toggleVotes`: `votes_enabled` set to the supplied value; an unknown event matches no row. */
  method ToggleVotes(db: Database, eventId: EventId, enabled: bool) returns (votesEnabled: bool)
    requires db.Valid()
    modifies db`events
    ensures db.Valid()
    ensures votesEnabled == enabled
    ensures db.events ==
      if eventId in old(db.events)
      then old(db.events)[eventId := ApplyUpdates(old(db.events)[eventId], UpdateList(Some(enabled), None))]
      else old(db.events)
  {
    if eventId in db.events {
      SettingsUpdateEffect(db.events[eventId], Some(enabled), None);
      db.events := db.events[eventId := ApplyUpdates(db.events[eventId], UpdateList(Some(enabled), None))];
    }
    votesEnabled := enabled;
  }

  /** `toggleAutoAccept`: `auto_accept_enabled` set to the supplied value. */
  method ToggleAutoAccept(db: Database, eventId: EventId, enabled: bool) returns (autoAcceptEnabled: bool)
    requires db.Valid()
    modifies db`events
    ensures db.Valid()
    ensures autoAcceptEnabled == enabled
    ensures db.events ==
      if eventId in old(db.events)
      then old(db.events)[eventId := ApplyUpdates(old(db.events)[eventId], UpdateList(None, Some(enabled)))]
      else old(db.events)
  {
    if eventId in db.events {
      SettingsUpdateEffect(db.events[eventId], None, Some(enabled));
      db.events := db.events[eventId := ApplyUpdates(db.events[eventId], UpdateList(None, Some(enabled)))];
    }
    autoAcceptEnabled := enabled;
  }

  /** Setting a flag to a value is idempotent, and only that flag differs from the original row. */
  lemma {:induction false} ToggleIdempotent(ev: Event, enabled: bool)
    ensures var once := ApplyUpdates(ev, UpdateList(Some(enabled), None));
      && once == ev.(votesEnabled := enabled)
      && ApplyUpdates(once, UpdateList(Some(enabled), None)) == once
    ensures var once := ApplyUpdates(ev, UpdateList(None, Some(enabled)));
      && once == ev.(autoAcceptEnabled := enabled)
      && ApplyUpdates(once, UpdateList(None, Some(enabled))) == once
  {
    SettingsUpdateEffect(ev, Some(enabled), None);
    SettingsUpdateEffect(ev, None, Some(enabled));
  }

  /** `SET allow_duplicates = NOT allow_duplicates`. */
  function FlipDuplicates(ev: Event): (r: Event)
    ensures r.allowDuplicates != ev.allowDuplicates
    ensures r.(allowDuplicates := ev.allowDuplicates) == ev
  {
    ev.(allowDuplicates := !ev.allowDuplicates)
  }

  /** Flipping twice restores the row. */
  lemma FlipTwiceRestores(ev: Event)
    ensures FlipDuplicates(FlipDuplicates(ev)) == ev
  {
    var once := FlipDuplicates(ev);
    assert once.(allowDuplicates := ev.allowDuplicates) == ev;
  }

  /**
   * `toggleDuplicates`: the flag is negated and the new value read back; for an
   * unknown event the read finds no row and the handler fails, reported as `None`.
   */
  method ToggleDuplicates(db: Database, eventId: EventId) returns (allowDuplicates: Option<bool>)
    requires db.Valid()
    modifies db`events
    ensures db.Valid()
    ensures eventId !in old(db.events) ==> allowDuplicates.None? && db.events == old(db.events)
    ensures eventId in old(db.events) ==>
      && db.events == old(db.events)[eventId := FlipDuplicates(old(db.events)[eventId])]
      && allowDuplicates == Some(!old(db.events)[eventId].allowDuplicates)
  {
    if eventId !in db.events {
      return None;
    }
    db.events := db.events[eventId := FlipDuplicates(db.events[eventId])];
    allowDuplicates := Some(db.events[eventId].allowDuplicates);
  }

  /** `SET rate_limit_max = max, rate_limit_window_minutes = window`. */
  function WithRateLimit(ev: Event, max: int, window: int): (r: Event)
    ensures GetRateLimitSettings(map[ev.id := r], ev.id) == Settings(max, window)
    ensures r.(rateLimitMax := ev.rateLimitMax, rateLimitWindowMinutes := ev.rateLimitWindowMinutes) == ev
  {
    ev.(rateLimitMax := max, rateLimitWindowMinutes := window)
  }

  /**
   * `updateRateLimit`, behind the validator that admits an integer `max` in
   * 1..50 and an integer `window` in 1..120.
   */
  method UpdateRateLimit(db: Database, eventId: EventId, max: int, window: int) returns (reported: Settings)
    requires db.Valid()
    requires 1 <= max <= 50 && 1 <= window <= 120
    modifies db`events
    ensures db.Valid()
    ensures reported == Settings(max, window)
    ensures db.events ==
      if eventId in old(db.events) then old(db.events)[eventId := WithRateLimit(old(db.events)[eventId], max, window)]
      else old(db.events)
    ensures eventId in old(db.events) ==> GetRateLimitSettings(db.events, eventId) == Settings(max, window)
  {
    if eventId in db.events {
      db.events := db.events[eventId := WithRateLimit(db.events[eventId], max, window)];
    }
    reported := Settings(max, window);
  }

  /** The requests of an event with one status, in table order. */
  function OfStatus(reqs: seq<Request>, eventId: EventId, st: Status): (r: seq<Request>)
    ensures forall x :: x in r <==> x in reqs && x.eventId == eventId && x.status == st
    ensures |r| <= |reqs|
  {
    if reqs == [] then []
    else
      var rest := OfStatus(reqs[1..], eventId, st);
      assert reqs == [reqs[0]] + reqs[1..];
      if reqs[0].eventId == eventId && reqs[0].status == st then [reqs[0]] + rest else rest
  }

  /** The requests of an event, in table order. */
  function OfEvent(reqs: seq<Request>, eventId: EventId): (r: seq<Request>)
    ensures forall x :: x in r <==> x in reqs && x.eventId == eventId
    ensures |r| <= |reqs|
  {
    if reqs == [] then []
    else
      var rest := OfEvent(reqs[1..], eventId);
      assert reqs == [reqs[0]] + reqs[1..];
      if reqs[0].eventId == eventId then [reqs[0]] + rest else rest
  }

  /** The counting query of `getEventStats` and of the end-of-event summary. */
  datatype Stats = Stats(total: nat, played: nat, rejected: nat, pending: nat, accepted: nat)

  function EventStats(reqs: seq<Request>, eventId: EventId): (s: Stats)
    ensures s.total == |OfEvent(reqs, eventId)|
    ensures s.played == |OfStatus(reqs, eventId, Played)| && s.rejected == |OfStatus(reqs, eventId, Rejected)|
    ensures s.pending == |OfStatus(reqs, eventId, Pending)| && s.accepted == |OfStatus(reqs, eventId, Accepted)|
  {
    Stats(|OfEvent(reqs, eventId)|,
      |OfStatus(reqs, eventId, Played)|, |OfStatus(reqs, eventId, Rejected)|,
      |OfStatus(reqs, eventId, Pending)|, |OfStatus(reqs, eventId, Accepted)|)
  }

  /** Every request has exactly one of the four statuses, so the per-status counts sum to the total. */
  lemma {:induction false} StatsSumToTotal(reqs: seq<Request>, eventId: EventId)
    ensures var s := EventStats(reqs, eventId);
      s.played + s.rejected + s.pending + s.accepted == s.total
  {
    if reqs != [] {
      StatsSumToTotal(reqs[1..], eventId);
    }
  }

  /** Every request of the event that is queued is counted as accepted, so the queue is never longer than that count. */
  lemma {:induction false} QueueCountedAsAccepted(reqs: seq<Request>, eventId: EventId)
    ensures OfStatus(reqs, eventId, Accepted) == AcceptedOf(reqs, eventId)
  {
    if reqs != [] {
      QueueCountedAsAccepted(reqs[1..], eventId);
    }
  }

  /** One row of the most-voted list: a played request with its tallies. */
  datatype VotedSong = VotedSong(songName: string, artist: string, upvotes: nat, downvotes: nat, netVotes: int)

  function VotedRows(played: seq<Request>, votes: map<nat, Vote>): (r: seq<VotedSong>)
    ensures |r| == |played|
    ensures forall i :: 0 <= i < |r| ==>
      && r[i].songName == played[i].songName && r[i].artist == played[i].artist
      && r[i].upvotes == CountVotes(votes, played[i].id, Up)
      && r[i].downvotes == CountVotes(votes, played[i].id, Down)
      && r[i].netVotes == r[i].upvotes - r[i].downvotes
  {
    seq(|played|, i requires 0 <= i < |played| =>
      var up := CountVotes(votes, played[i].id, Up);
      var down := CountVotes(votes, played[i].id, Down);
      VotedSong(played[i].songName, played[i].artist, up, down, up - down))
  }

  datatype DetailedCounts = DetailedCounts(total: nat, played: nat, rejected: nat)

  datatype DetailedStatsOutcome =
    | Unauthenticated
    | StatsNotFound
    | DetailedReport(event: Event, counts: DetailedCounts, mostVoted: seq<VotedSong>)

  /**
   * The `detailed-stats` route: 401 without a session DJ, 404 unless the event
   * exists and its `dj_id` is the session's, else the counts and the played
   * requests with their vote tallies.
   */
  function DetailedStats(
    events: map<EventId, Event>, reqs: seq<Request>, votes: map<nat, Vote>,
    eventId: EventId, session: Option<DjId>): (o: DetailedStatsOutcome)
    ensures o == Unauthenticated <==> !IsSet(session)
    ensures o == StatsNotFound <==> IsSet(session) && !(eventId in events && SameDj(events[eventId].djId, session))
    ensures o.DetailedReport? ==>
      && eventId in events && o.event == events[eventId]
      && o.counts.total == EventStats(reqs, eventId).total
      && o.counts.played == EventStats(reqs, eventId).played
      && o.counts.rejected == EventStats(reqs, eventId).rejected
      && |o.mostVoted| == o.counts.played
      && o.mostVoted == VotedRows(OfStatus(reqs, eventId, Played), votes)
      && forall i :: 0 <= i < |o.mostVoted| ==> o.mostVoted[i].netVotes == o.mostVoted[i].upvotes - o.mostVoted[i].downvotes
  {
    if RequireAuth(session) != Next then Unauthenticated
    else if eventId !in events || !SameDj(events[eventId].djId, session) then StatsNotFound
    else
      var s := EventStats(reqs, eventId);
      DetailedReport(events[eventId], DetailedCounts(s.total, s.played, s.rejected),
        VotedRows(OfStatus(reqs, eventId, Played), votes))
  }

  /** The detailed statistics are served exactly when both route gates would pass for that DJ. */
  lemma DetailedStatsGate(events: map<EventId, Event>, reqs: seq<Request>, votes: map<nat, Vote>, eventId: EventId, session: Option<DjId>)
    ensures DetailedStats(events, reqs, votes, eventId, session).DetailedReport? <==>
      RequireAuth(session) == Next && RequireEventOwnership(events, eventId, session) == Next
  {
  }
}
