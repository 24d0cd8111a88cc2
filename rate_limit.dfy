/**
 * The fixed-window rate limiter over the `rate_limits` table: one counter row
 * per socket id, lazily reset on the next check once its window has passed,
 * incremented separately after an admission, and purged by a janitor.
 */
module RateLimitService {

  import opened Store

  /** An event's `rate_limit_max` and `rate_limit_window_minutes`. */
  datatype Settings = Settings(maxRequests: int, windowMinutes: int)

  const MinuteMs: int := 60 * 1000
  /** The janitor removes rows whose window closed more than an hour ago. */
  const JanitorAgeMs: int := 60 * 60 * 1000

  /** The object `checkRateLimit` returns: `remaining` when allowed, `remainingTime` (minutes) when not. */
  datatype CheckResult =
    | Allowed(count: nat, max: int, remaining: int)
    | Denied(count: nat, max: int, remainingTime: int)

  /** `getRateLimitSettings`: the event's own limits, or 3 requests per 15 minutes for an unknown event. */
  function GetRateLimitSettings(events: map<EventId, Event>, eventId: EventId): (s: Settings)
    ensures eventId in events ==>
      s == Settings(events[eventId].rateLimitMax, events[eventId].rateLimitWindowMinutes)
    ensures eventId !in events ==> s == Settings(3, 15)
  {
    if eventId in events then Settings(events[eventId].rateLimitMax, events[eventId].rateLimitWindowMinutes)
    else Settings(3, 15)
  }

  /** `Math.ceil(ms / 1000 / 60)` on integer milliseconds: the least whole number of minutes covering `ms`. */
  function CeilMinutes(ms: int): (q: int)
    ensures (q - 1) * MinuteMs < ms <= q * MinuteMs
    ensures ms > 0 ==> q >= 1
  {
    -((-ms) / MinuteMs)
  }

  function Lookup(rows: map<SocketId, Counter>, socketId: SocketId): (r: Option<Counter>)
    ensures r.Some? <==> socketId in rows
    ensures r.Some? ==> r.value == rows[socketId]
  {
    if socketId in rows then Some(rows[socketId]) else None
  }

  /** What `checkRateLimit` reports for a socket whose row is `row`. */
  function Verdict(row: Option<Counter>, s: Settings, now: int): (r: CheckResult)
    ensures r.max == s.maxRequests
    ensures r.Denied? <==> row.Some? && now < row.value.resetAt && row.value.requestCount >= s.maxRequests
    ensures (row.None? || now >= row.value.resetAt) ==> r == Allowed(0, s.maxRequests, s.maxRequests)
    ensures r.Denied? ==>
      && r.count == row.value.requestCount
      && r.remainingTime >= 1
      && (r.remainingTime - 1) * MinuteMs < row.value.resetAt - now <= r.remainingTime * MinuteMs
    ensures r.Allowed? && row.Some? && now < row.value.resetAt ==>
      r.count == row.value.requestCount && r.remaining == s.maxRequests - r.count && r.remaining >= 1
  {
    match row
    case None => Allowed(0, s.maxRequests, s.maxRequests)
    case Some(c) =>
      if now >= c.resetAt then Allowed(0, s.maxRequests, s.maxRequests)
      else if c.requestCount >= s.maxRequests then Denied(c.requestCount, s.maxRequests, CeilMinutes(c.resetAt - now))
      else Allowed(c.requestCount, s.maxRequests, s.maxRequests - c.requestCount)
  }

  /** The socket's row after `checkRateLimit`: created or reset to a fresh window, otherwise untouched. */
  function CheckedRow(row: Option<Counter>, s: Settings, now: int): (c: Counter)
    ensures (row.None? || now >= row.value.resetAt) ==> c == Counter(0, now + s.windowMinutes * MinuteMs)
    ensures row.Some? && now < row.value.resetAt ==> c == row.value
  {
    match row
    case None => Counter(0, now + s.windowMinutes * MinuteMs)
    case Some(c) => if now >= c.resetAt then Counter(0, now + s.windowMinutes * MinuteMs) else c
  }

  /** The whole table after `checkRateLimit`: only the socket's own row may change. */
  function AfterCheck(rows: map<SocketId, Counter>, socketId: SocketId, s: Settings, now: int): (r: map<SocketId, Counter>)
    ensures r.Keys == rows.Keys + {socketId}
    ensures r[socketId] == CheckedRow(Lookup(rows, socketId), s, now)
    ensures forall k :: k in rows && k != socketId ==> r[k] == rows[k]
  {
    rows[socketId := CheckedRow(Lookup(rows, socketId), s, now)]
  }

  /** `incrementRateLimit`: one more request on that socket's row, no other row touched, no row created. */
  function Incremented(rows: map<SocketId, Counter>, socketId: SocketId): (r: map<SocketId, Counter>)
    ensures r.Keys == rows.Keys
    ensures socketId in rows ==>
      r[socketId] == Counter(rows[socketId].requestCount + 1, rows[socketId].resetAt)
    ensures forall k :: k in rows && k != socketId ==> r[k] == rows[k]
    ensures socketId !in rows ==> r == rows
  {
    if socketId in rows then
      rows[socketId := rows[socketId].(requestCount := rows[socketId].requestCount + 1)]
    else rows
  }

  /** `cleanupExpired`: drops exactly the rows whose window closed more than an hour before `now`. */
  function Purged(rows: map<SocketId, Counter>, now: int): (r: map<SocketId, Counter>)
    ensures forall k :: k in r <==> k in rows && !(rows[k].resetAt < now - JanitorAgeMs)
    ensures forall k :: k in r ==> r[k] == rows[k]
  {
    map k | k in rows && !(rows[k].resetAt < now - JanitorAgeMs) :: rows[k]
  }

  /** A denied check writes nothing. */
  lemma DeniedWritesNothing(rows: map<SocketId, Counter>, socketId: SocketId, s: Settings, now: int)
    requires Verdict(Lookup(rows, socketId), s, now).Denied?
    ensures AfterCheck(rows, socketId, s, now) == rows
  {
  }

  /** A rate-limit check never raises a count: it keeps it or resets it to 0. */
  lemma CheckNeverIncrements(rows: map<SocketId, Counter>, socketId: SocketId, s: Settings, now: int)
    ensures var c := AfterCheck(rows, socketId, s, now)[socketId];
      c.requestCount == 0 || (socketId in rows && c.requestCount == rows[socketId].requestCount)
  {
  }

  /**
   * With a window of at least a minute, the row left by a rate-limit check is still inside
   * its window at the same instant; so the rate-limit check made after an increment of an
   * admitted submission changes nothing and the increment is counted once.
   */
  lemma SecondCheckIsNoOp(rows: map<SocketId, Counter>, socketId: SocketId, s: Settings, now: int)
    requires s.windowMinutes >= 1
    ensures var rows1 := AfterCheck(rows, socketId, s, now);
      var rows2 := Incremented(rows1, socketId);
      && AfterCheck(rows2, socketId, s, now) == rows2
      && rows2[socketId].requestCount == rows1[socketId].requestCount + 1
  {
    var rows1 := AfterCheck(rows, socketId, s, now);
    assert rows1[socketId].resetAt > now;
    var rows2 := Incremented(rows1, socketId);
    assert Lookup(rows2, socketId) == Some(rows2[socketId]);
    assert rows2[socketId := rows2[socketId]] == rows2;
  }

  /**
   * The counter is keyed by socket only: requests counted while submitting to
   * one event are seen by a rate-limit check made for any other event.
   */
  lemma CounterSharedAcrossEvents(
    rows: map<SocketId, Counter>, socketId: SocketId, first: Settings, other: Settings, now: int, later: int)
    requires first.windowMinutes >= 1
    requires now <= later
    requires later < AfterCheck(rows, socketId, first, now)[socketId].resetAt
    ensures var rows1 := AfterCheck(rows, socketId, first, now);
      var r := Verdict(Lookup(Incremented(rows1, socketId), socketId), other, later);
      r.count == rows1[socketId].requestCount + 1
      && (r.Denied? <==> rows1[socketId].requestCount + 1 >= other.maxRequests)
  {
    var rows1 := AfterCheck(rows, socketId, first, now);
    assert Lookup(Incremented(rows1, socketId), socketId) == Some(Incremented(rows1, socketId)[socketId]);
  }

  /** One admitted submission at time `now`: check, then increment. */
  function Admit(rows: map<SocketId, Counter>, socketId: SocketId, s: Settings, now: int): map<SocketId, Counter> {
    Incremented(AfterCheck(rows, socketId, s, now), socketId)
  }

  /**
   * Three submissions inside one 15-minute window on a fresh socket with a
   * limit of 3 are admitted (each check reports 3, 2 and 1 remaining), and a
   * fourth check inside that window is denied with a retry of 1 to 15 minutes.
   */
  lemma {:induction false} ThreePerWindow(socketId: SocketId, t0: int, t1: int, t2: int, t3: int)
    requires t0 <= t1 <= t2 <= t3 < t0 + 15 * MinuteMs
    ensures var s := Settings(3, 15);
      var rows1 := Admit(map[], socketId, s, t0);
      var rows2 := Admit(rows1, socketId, s, t1);
      var rows3 := Admit(rows2, socketId, s, t2);
      && Verdict(Lookup(map[], socketId), s, t0) == Allowed(0, 3, 3)
      && Verdict(Lookup(rows1, socketId), s, t1) == Allowed(1, 3, 2)
      && Verdict(Lookup(rows2, socketId), s, t2) == Allowed(2, 3, 1)
      && var fourth := Verdict(Lookup(rows3, socketId), s, t3);
         fourth.Denied? && fourth.count == 3 && 1 <= fourth.remainingTime <= 15
  {
    var s := Settings(3, 15);
    var end := t0 + 15 * MinuteMs;
    var rows1 := Admit(map[], socketId, s, t0);
    assert rows1[socketId] == Counter(1, end);
    assert Lookup(rows1, socketId) == Some(Counter(1, end));
    var rows2 := Admit(rows1, socketId, s, t1);
    assert rows2[socketId] == Counter(2, end);
    assert Lookup(rows2, socketId) == Some(Counter(2, end));
    var rows3 := Admit(rows2, socketId, s, t2);
    assert rows3[socketId] == Counter(3, end);
    assert Lookup(rows3, socketId) == Some(Counter(3, end));
    var fourth := Verdict(Lookup(rows3, socketId), s, t3);
    assert (fourth.remainingTime - 1) * MinuteMs < end - t3;
  }

  /** `checkRateLimit(socketId, eventId)` at time `now`. */
  method CheckRateLimit(db: Database, socketId: SocketId, eventId: EventId, now: int) returns (r: CheckResult)
    requires db.Valid()
    modifies db`rateLimits
    ensures db.Valid()
    ensures var s := GetRateLimitSettings(db.events, eventId);
      && r == Verdict(Lookup(old(db.rateLimits), socketId), s, now)
      && db.rateLimits == AfterCheck(old(db.rateLimits), socketId, s, now)
  {
    var settings := GetRateLimitSettings(db.events, eventId);
    var max := settings.maxRequests;
    var windowMs := settings.windowMinutes * MinuteMs;
    if socketId !in db.rateLimits {
      db.rateLimits := db.rateLimits[socketId := Counter(0, now + windowMs)];
      return Allowed(0, max, max);
    }
    var limit := db.rateLimits[socketId];
    if now >= limit.resetAt {
      db.rateLimits := db.rateLimits[socketId := Counter(0, now + windowMs)];
      return Allowed(0, max, max);
    }
    if limit.requestCount >= max {
      var remainingTime := CeilMinutes(limit.resetAt - now);
      return Denied(limit.requestCount, max, remainingTime);
    }
    assert db.rateLimits == AfterCheck(old(db.rateLimits), socketId, settings, now);
    return Allowed(limit.requestCount, max, max - limit.requestCount);
  }

  /** `incrementRateLimit(socketId)`. */
  method IncrementRateLimit(db: Database, socketId: SocketId)
    requires db.Valid()
    modifies db`rateLimits
    ensures db.Valid()
    ensures db.rateLimits == Incremented(old(db.rateLimits), socketId)
  {
    if socketId in db.rateLimits {
      var row := db.rateLimits[socketId];
      db.rateLimits := db.rateLimits[socketId := row.(requestCount := row.requestCount + 1)];
    }
  }

  /** `cleanupExpired()` run at time `now`. */
  method CleanupExpired(db: Database, now: int)
    requires db.Valid()
    modifies db`rateLimits
    ensures db.Valid()
    ensures db.rateLimits == Purged(old(db.rateLimits), now)
  {
    var cutoff := now - JanitorAgeMs;
    db.rateLimits := map k | k in db.rateLimits && !(db.rateLimits[k].resetAt < cutoff) :: db.rateLimits[k];
  }
}
