# djrequest request engine in Dafny

This project models the request admission and queue coordination engine of djrequest, a party song-request service. Guests submit songs to an event. A per-socket fixed-window rate limiter decides whether the submission is admitted. Admitted songs are checked against pending and queued requests for the same track, then either queued at once (auto-accept) or left pending for the DJ. Guests toggle up and down votes on queued songs. The DJ accepts, rejects, reorders and marks songs played, adds songs directly, changes the event's policy and ends the event. Around the engine sit the access decisions of the route middlewares, the field validators, and an older in-memory prototype of the same queue.

The persisted tables (`events`, `requests`, `votes`, `rate_limits`) are the fields of one class, `Store.Database`:

- `Database.Valid()` states the table invariants the handlers keep:
  - request ids are a primary key;
  - every accepted request has a position;
  - vote ids stay below the auto-increment value;
  - a voter holds at most one vote per request;
  - events are keyed by their own id and have a window of at least one minute.
- Each socket or HTTP handler is one method that changes exactly the tables its `modifies` clause names.
- Each handler's `ensures` ties the new tables, and what the handler reports, to pure functions of the old tables. The properties of those functions are proved as lemmas.
- Inputs that the source draws from the environment are parameters:
  - the current time `now` (milliseconds), for both `Date.now()` and SQL `NOW()`;
  - fresh UUIDs;
  - the validator library's `isEmail`, `normalizeEmail` and `isUUID`, passed as function parameters.
- SQL `ORDER BY x ASC` is a stable insertion sort (`Sorting.SortBy`) with sortedness and permutation proved. NULL positions sort first, as in MySQL.

Modules, one per source file:

| module | models |
|---|---|
| `Store` | the tables, their row types, and the `UPDATE requests ... WHERE id = ?` statements |
| `RateLimitService` | `src/services/rateLimit.service.js` |
| `QueueService` | `src/services/queue.service.js` |
| `VoteLedger`, `Reorder`, `EventHandlers` | `src/sockets/eventHandlers.js` |
| `EventsRoutes` | `src/routes/events.routes.js` |
| `EventsController` | `src/controllers/events.controller.js` |
| `LegacyServer` | `server.js` |
| `Auth` | `src/middlewares/auth.js` |
| `Text`, `EventsValidator`, `AuthValidator` | `src/validators/*.js` |

Where the code does something other than what one would expect of it, the model follows the code:

- Accept, reject and mark-played do not check the request's current status.
- Reject keeps the request's queue position.
- A submission's rate-limit check runs before the event lookup, so a submission to an unknown event still creates or resets the socket's counter.
- A submission is not refused when the event has ended.
- Casting the same vote twice restores the tallies only when the voter had no vote or already held that vote. Starting from the opposite vote, the first cast flips it and the second retracts it (`VoteLedger.TwiceFromOppositeVote`).
- A reorder that omits an accepted request can leave two queued requests at the same position (`Reorder.PartialReorderCollides`).
- The prototype's request objects do not record their event.

## Model

| member | source | states |
|---|---|---|
| `RateLimitService.GetRateLimitSettings` | src/services/rateLimit.service.js:4-11 | a known event's own max and window; an unknown event falls back to 3 requests per 15 minutes |
| `RateLimitService.Lookup` | src/services/rateLimit.service.js:19-22 | the socket's row iff the table has one, and then exactly that row |
| `RateLimitService.CeilMinutes` | src/services/rateLimit.service.js:55 | the retry time is the least whole number of minutes covering the remaining milliseconds, and at least 1 when time remains |
| `RateLimitService.Verdict` | src/services/rateLimit.service.js:24-69 | denied iff a row exists, its window is still open and its count has reached max; a missing or expired row admits with count 0 and remaining = max; inside the window an admit reports remaining = max − count ≥ 1, a denial the ceiling of the minutes left |
| `RateLimitService.CheckedRow` | src/services/rateLimit.service.js:24-52 | a missing or expired row becomes count 0 with reset at now + window; a row inside its window is left as it is |
| `RateLimitService.AfterCheck` | src/services/rateLimit.service.js:19-52 | after a rate-limit check the table has the socket's row as `CheckedRow` and every other row unchanged |
| `RateLimitService.Incremented` | src/services/rateLimit.service.js:72-77 | the socket's count rises by exactly 1, no other row changes, and no row is created |
| `RateLimitService.Purged` | src/services/rateLimit.service.js:79-84 | exactly the rows whose reset time is more than an hour before now are deleted; the others keep their values |
| `RateLimitService.DeniedWritesNothing` | src/services/rateLimit.service.js:54-62 | a denied check leaves the whole table unchanged |
| `RateLimitService.CheckNeverIncrements` | src/services/rateLimit.service.js:40-69 | a rate-limit check keeps or resets a count, never raises it |
| `RateLimitService.SecondCheckIsNoOp` | src/sockets/eventHandlers.js:107-113 | with a window of at least a minute, the rate-limit check made after the increment changes nothing, so a submission is counted exactly once |
| `RateLimitService.CounterSharedAcrossEvents` | src/services/rateLimit.service.js:19-22 | the counter is keyed by socket only: requests counted under one event are seen by the rate-limit check for any other event |
| `RateLimitService.ThreePerWindow` | src/services/rateLimit.service.js:13-77 | on a fresh socket with the default limits, three submissions in one window are admitted with 3, 2 and 1 remaining, and a fourth is denied with a retry of 1 to 15 minutes |
| `RateLimitService.CheckRateLimit` | src/services/rateLimit.service.js:13-70 | the method reports `Verdict` of the old row and leaves the table as `AfterCheck` |
| `RateLimitService.IncrementRateLimit` | src/services/rateLimit.service.js:72-77 | the method leaves the table as `Incremented` |
| `RateLimitService.CleanupExpired` | src/services/rateLimit.service.js:79-84 | the method leaves the table as `Purged` |
| `QueueService.AcceptedOf` | src/services/queue.service.js:14 | holds exactly the requests of the event whose status is accepted, and keeps the primary key |
| `QueueService.CountVotes` | src/services/queue.service.js:8-9 | never more than the number of vote rows, and 0 iff no vote row of that type belongs to the request |
| `QueueService.QueueOrder` | src/services/queue.service.js:14-16 | the accepted requests of the event, as a permutation, sorted by position ascending with NULL first |
| `QueueService.Tally` | src/services/queue.service.js:7-11 | one row per request, in order, carrying that request |
| `QueueService.QueueWithVotes` | src/services/queue.service.js:4-22 | exactly the event's accepted requests, one row each, sorted by position; each row's up and down counts are the numbers of vote rows of that type for the request; net = up − down; under the primary key no id appears twice |
| `QueueService.RequestWithVotes` | src/services/queue.service.js:24-39 | a row iff the id exists, with that request and its up and down vote counts |
| `QueueService.FirstWithId` | src/services/queue.service.js:32-38 | a row of the table with that id, or none iff no row has it |
| `QueueService.MaxPosition` | src/services/queue.service.js:42-45 | none iff no accepted request of the event has a position; otherwise a position held by one of them and at least every other |
| `QueueService.NextQueuePosition` | src/services/queue.service.js:41-48 | at least 1, strictly above every accepted position of the event, and either 1 or one above a position that some accepted request holds |
| `QueueService.LiveMatch` | src/services/queue.service.js:53-55 | a match is never a rejected or played request and always has a URI |
| `QueueService.FirstLiveMatch` | src/services/queue.service.js:53-57 | some pending or accepted request of the event with that URI, or none iff there is no such request |
| `QueueService.CheckDuplicate` | src/services/queue.service.js:50-67 | a missing or empty URI is never a duplicate; a duplicate iff a pending or accepted request of the event has the URI; the location is the queue when the match is accepted and pending otherwise |
| `VoteLedger.PriorVote` | src/sockets/eventHandlers.js:179-186 | none iff the voter has no vote row for the request; otherwise the type of that row |
| `VoteLedger.Toggled` | src/sockets/eventHandlers.js:179-204 | the table after the vote: no key other than the next auto-increment id appears; every other voter's row keeps its id and value; the voter's remaining rows are all of the cast type; a first vote leaves the voter with a vote |
| `VoteLedger.ToggleRow` | src/sockets/eventHandlers.js:185-197 | with one row per voter, the toggle deletes the voter's row when the type repeats and updates it in place otherwise |
| `VoteLedger.ToggleKeepsLedger` | src/sockets/eventHandlers.js:179-204 | the toggle keeps at most one vote per voter and request, and every id below the auto-increment value |
| `VoteLedger.ToggleCounts` | src/sockets/eventHandlers.js:179-215 | a first vote adds one of its type; repeating the current vote removes one; the opposite vote moves one from the old type to the new |
| `VoteLedger.ToggleLeavesOtherRequests` | src/sockets/eventHandlers.js:179-204 | a vote leaves every other request's tallies unchanged |
| `VoteLedger.TwiceFromNoVote` | src/sockets/eventHandlers.js:179-204 | from no vote, voting the same type twice gives back exactly the original vote table |
| `VoteLedger.TwiceFromSameVote` | src/sockets/eventHandlers.js:179-204 | from a vote of that type, voting it twice gives back every tally |
| `VoteLedger.TwiceFromOppositeVote` | src/sockets/eventHandlers.js:179-204 | from the opposite vote, voting twice leaves the voter with no vote and the old type's tally one lower |
| `Reorder.LastIndex` | src/sockets/eventHandlers.js:296-301 | the index of an id's last occurrence in the list |
| `Reorder.Reordered` | src/sockets/eventHandlers.js:296-301 | the table after the loop: only positions change; an unlisted row is unchanged; a listed row's position p is in 1..n, the id sits at index p − 1 of the list, and not after it |
| `Reorder.ReorderStep` | src/sockets/eventHandlers.js:296-301 | one loop pass writes position i + 1 on the row with the i-th id; a row whose id is listed more than once ends at one past its last occurrence |
| `Reorder.ReorderKeepsRows` | src/sockets/eventHandlers.js:296-301 | reordering keeps the table's length and ids, and each row's status and event; only positions change |
| `Reorder.AcceptedIdsOfReordered` | src/sockets/eventHandlers.js:296-301 | reordering does not change which requests are accepted |
| `Reorder.QueueLength` | src/services/queue.service.js:4-22 | under the primary key the queue has one row per accepted id of the event |
| `Reorder.QueueKeysFromIds` | src/sockets/eventHandlers.js:296-303 | after a reorder by distinct accepted ids, each queued request's position is one more than its index in the list |
| `Reorder.FillOrder` | src/services/queue.service.js:16 | sorted rows with distinct ids, each keyed one past its index in the list, list the ids in order |
| `Reorder.ReorderSetsQueueOrder` | src/sockets/eventHandlers.js:291-304 | when the supplied ids are the event's accepted requests, each listed once, the queue read afterwards lists exactly those ids in exactly that order |
| `Reorder.PartialReorderCollides` | src/sockets/eventHandlers.js:296-301 | a reorder that omits a queued request can leave two queued requests at the same position |
| `EventHandlers.JoinEvent` | src/sockets/eventHandlers.js:9-22 | the socket's rate-limit status is reported, and only its counter row may change |
| `EventHandlers.Truthy` | src/sockets/eventHandlers.js:100 | a missing or empty preview URL is stored as NULL, any other kept as sent |
| `EventHandlers.SubmittedRow` | src/sockets/eventHandlers.js:86-104 | the inserted row carries the given ids and socket, a non-empty user name (the submitter's, else `Anonyme`), no empty preview, no album or duration, no played time, and created at now |
| `Store.SetAccepted` | src/sockets/eventHandlers.js:246-249 | same length; the rows with the id become accepted at the position, every other row is unchanged |
| `Store.SetRejected` | src/sockets/eventHandlers.js:269-272 | same length; the rows with the id become rejected with their position kept, every other row is unchanged |
| `Store.SetPosition` | src/sockets/eventHandlers.js:297-300 | same length; the rows with the id get the position whatever their status, every other row is unchanged |
| `Store.SetPlayed` | src/sockets/eventHandlers.js:315-318 | same length; the rows with the id become played at now with no position, every other row is unchanged |
| `EventHandlers.Submit` | src/sockets/eventHandlers.js:25-145 | refused for the rate limit iff the rate-limit check denies; refused for an unknown event iff that check admits and the event is missing; a duplicate refusal iff duplicates are off and `CheckDuplicate` reports one, with its location; a refusal inserts no request and increments no counter; a creation appends one row, accepted at the next position when auto-accept is on and pending with no position otherwise, and the whole row is fixed: the submitter's name or `Anonyme`, the song's fields, the preview only when non-empty, and `created_at` = now; the submission is counted exactly once |
| `EventHandlers.RequestSong` | src/sockets/eventHandlers.js:25-145 | the handler's reply and its writes to the requests and rate-limit tables are those of `Submit`, and the table invariants hold |
| `EventHandlers.ParseVoteType` | src/sockets/eventHandlers.js:151 | only "up" and "down" are vote types |
| `EventHandlers.GateVote` | src/sockets/eventHandlers.js:151-177 | ignored iff the type is unknown or no accepted request has the id; a votes-disabled error iff the accepted request's event is missing or has votes off; otherwise the vote proceeds |
| `EventHandlers.CastVote` | src/sockets/eventHandlers.js:148-227 | an ignored or refused vote changes nothing; otherwise the vote table becomes `Toggled` and the reply carries the request's new up and down counts |
| `EventHandlers.AcceptKeepsTables` | src/sockets/eventHandlers.js:230-262 | accepting keeps the set of ids, hence the primary key, and keeps every accepted request positioned |
| `EventHandlers.RejectKeepsTables` | src/sockets/eventHandlers.js:265-288 | rejecting keeps the set of ids, hence the primary key, and keeps every accepted request positioned |
| `EventHandlers.PositionKeepsTables` | src/sockets/eventHandlers.js:291-308 | writing a position keeps the set of ids, hence the primary key, and keeps every accepted request positioned |
| `EventHandlers.PlayedKeepsTables` | src/sockets/eventHandlers.js:311-325 | marking played keeps the set of ids, hence the primary key, and keeps every accepted request positioned |
| `EventHandlers.AcceptRequest` | src/sockets/eventHandlers.js:230-262 | an unknown id changes nothing; otherwise the request becomes accepted at its event's next position, whatever its status, and the reply reports that position, the submitter and the queue read afterwards |
| `EventHandlers.AcceptedAboveOthers` | src/sockets/eventHandlers.js:244-249 | after an accept, every other queued request of the event holds a position strictly below the new one |
| `EventHandlers.AboveOthersIsLast` | src/services/queue.service.js:14-16 | a queued request positioned above every other queued request of its event is the last row of the queue |
| `EventHandlers.AcceptJoinsBack` | src/sockets/eventHandlers.js:234-251 | the accepted request is the last row of the queue read after the accept |
| `EventHandlers.RejectRequest` | src/sockets/eventHandlers.js:265-288 | only the target's status becomes rejected and its position is kept; the notification goes to the rejected row, if any |
| `EventHandlers.RejectLeavesQueue` | src/sockets/eventHandlers.js:269-272 | a rejected request leaves the queue, and every other queued request stays |
| `EventHandlers.ReorderQueue` | src/sockets/eventHandlers.js:291-308 | the loop leaves the table as `Reordered` by the supplied ids, keeps the invariants, and reports the queue read afterwards |
| `EventHandlers.MarkPlayed` | src/sockets/eventHandlers.js:311-325 | the target becomes played at now with its position cleared, whatever its status; the queue is read afterwards |
| `EventHandlers.PlayedLeavesQueue` | src/sockets/eventHandlers.js:315-318 | the played request leaves the queue; every other row, its position included, is unchanged, and every other queued request stays queued |
| `EventHandlers.UpdateList` | src/sockets/eventHandlers.js:333-345 | no clause is pushed iff neither flag is supplied |
| `EventHandlers.ApplyUpdates` | src/sockets/eventHandlers.js:345-351 | only the two flags can change, and a flag no clause names keeps its value |
| `EventHandlers.SettingsUpdateEffect` | src/sockets/eventHandlers.js:333-351 | exactly the supplied flags are set, nothing else in the event changes, and repeating the update changes nothing more |
| `EventHandlers.UpdateEventSettings` | src/sockets/eventHandlers.js:328-362 | the room is notified iff some flag is supplied; the event row, if it exists, gets the supplied flags |
| `Auth.RequireAuth` | src/middlewares/auth.js:4-9 | the request continues iff the session holds a truthy DJ id, and is refused with 401 otherwise |
| `Auth.IsSet` | src/middlewares/auth.js:4-9 | falsy exactly for a missing id and 0; a set id matches itself under the strict test |
| `Auth.SameDj` | src/middlewares/auth.js:25-31 | the strict `!==` test fails iff the two ids differ or the owner is NULL |
| `Auth.RequireEventOwnership` | src/middlewares/auth.js:12-36 | 404 for an unknown event; continues iff the event's owner equals the session's DJ, so an unowned event is refused with 403 |
| `Auth.RequireEventAccess` | src/middlewares/auth.js:39-67 | 404 for an unknown event; an anonymous caller continues; a logged-in caller is refused with 403 iff the event has an owner other than them |
| `Auth.OwnershipImpliesAccess` | src/middlewares/auth.js:12-67 | whatever passes the ownership gate passes the access gate; an unowned event passes access for everyone and fails ownership for everyone |
| `EventsController.NewEvent` | src/controllers/events.controller.js:13-17 | a new event refuses duplicates, has votes on and auto-accept off, allows 3 requests per 15 minutes, and is not ended |
| `EventsController.NewEventLimitsAreFallback` | src/controllers/events.controller.js:13-17 | a new event's limits are the ones an unknown event falls back to |
| `EventsController.CreateEvent` | src/controllers/events.controller.js:7-35 | the events table gains `NewEvent` under the fresh id, owned by the session's DJ |
| `EventsController.ToggleVotes` | src/controllers/events.controller.js:127-142 | `votes_enabled` of an existing event is set to the supplied value, and the reply echoes it |
| `EventsController.ToggleAutoAccept` | src/controllers/events.controller.js:165-180 | `auto_accept_enabled` of an existing event is set to the supplied value, and the reply echoes it |
| `EventsController.ToggleIdempotent` | src/controllers/events.controller.js:132-173 | setting either flag changes only that flag, and setting it again changes nothing |
| `EventsController.FlipDuplicates` | src/controllers/events.controller.js:148-150 | `allow_duplicates` is negated and nothing else changes |
| `EventsController.FlipTwiceRestores` | src/controllers/events.controller.js:148-150 | negating twice gives back the original event |
| `EventsController.ToggleDuplicates` | src/controllers/events.controller.js:144-163 | an existing event's flag is negated and the new value reported; for an unknown event nothing changes and no value is reported |
| `EventsController.WithRateLimit` | src/controllers/events.controller.js:187-190 | the event's limits become exactly the new max and window; every other field is unchanged |
| `EventsController.UpdateRateLimit` | src/controllers/events.controller.js:182-197 | an existing event's limits become the validated max and window, and the reply echoes them |
| `EventsController.OfStatus` | src/controllers/events.controller.js:95-100 | exactly the requests of the event with that status |
| `EventsController.OfEvent` | src/controllers/events.controller.js:94-100 | exactly the requests of the event |
| `EventsController.EventStats` | src/controllers/events.controller.js:93-100 | the total, played, rejected, pending and accepted counts of the event's requests |
| `EventsController.StatsSumToTotal` | src/controllers/events.controller.js:93-100 | the played, rejected, pending and accepted counts sum to the total |
| `EventsController.QueueCountedAsAccepted` | src/controllers/events.controller.js:98 | the requests counted as accepted are exactly the event's queue |
| `EventsController.VotedRows` | src/controllers/events.controller.js:310-327 | one row per played request, with its up and down vote counts and net = up − down |
| `EventsController.DetailedStats` | src/controllers/events.controller.js:258-327 | 401 iff the session has no DJ; 404 iff the event is missing or owned by another DJ; otherwise the event's counts and, for each played request of the event in order, its song, its numbers of up and down vote rows, and net = up − down |
| `EventsController.DetailedStatsGate` | src/routes/events.routes.js:270-281 | the detailed statistics are served iff both the authentication gate and the ownership gate pass |
| `EventsRoutes.PendingList` | src/routes/events.routes.js:98-113 | exactly the event's pending requests, as a permutation, ordered by creation time ascending; their number is the pending count |
| `EventsRoutes.DjRow` | src/routes/events.routes.js:151-169 | the inserted row is queued for the event at the position, from socket `dj-interface`, with a non-empty user name (the DJ's, else `DJ`), the song's album, duration and preview, and created at now |
| `EventsRoutes.AddSongDj` | src/routes/events.routes.js:124-197 | an unknown event changes nothing; otherwise one accepted row is appended at the next position, from `dj-interface`, with user name `DJ` by default, and no rate-limit counter or duplicate check is consulted |
| `EventsRoutes.DjAddJoinsBack` | src/routes/events.routes.js:145-169 | the added song is the last row of the queue, which grows by exactly one |
| `EventsRoutes.EndEvent` | src/routes/events.routes.js:200-256 | an unknown event changes nothing; otherwise `ended_at` is set to now and the per-status counts are reported |
| `EventsValidator.CreateEventErrors` | src/validators/events.validator.js:3-8 | passes iff the trimmed name has 3 to 100 characters; the required error iff the name is all whitespace |
| `EventsValidator.EventIdErrors` | src/validators/events.validator.js:10-14 | passes iff the id is non-empty and a UUID; the required error iff the id is empty |
| `EventsValidator.RateLimitErrors` | src/validators/events.validator.js:16-22 | passes iff the id passes, max is an integer in 1..50 and window an integer in 1..120 |
| `Text.IsIntIn` | src/validators/events.validator.js:16-22 | a passing text starts with a sign or a digit, and with a positive lower bound never with a minus sign |
| `EventsValidator.ToggleVotesErrors` | src/validators/events.validator.js:24-28 | passes iff the id passes and `enabled` is a boolean |
| `EventsValidator.IsBooleanText` | src/validators/events.validator.js:24-28 | a passing text is 1 to 5 characters, a single digit exactly when it has one character, and never holds a capital letter |
| `EventsValidator.SearchErrors` | src/validators/events.validator.js:30-38 | passes iff the trimmed query has 2 to 100 characters and the event id is non-empty and a UUID |
| `EventsValidator.AcceptedLimitsArePositive` | src/validators/events.validator.js:16-22 | limits that pass are always positive: max in 1..50 and window in 1..120 |
| `EventsValidator.InRangeLimitsPass` | src/validators/events.validator.js:18-21 | every in-range decimal max and window passes, and reads back as itself |
| `EventsValidator.AcceptedNameIsTrimmed` | src/validators/events.validator.js:4-7 | an accepted name, once trimmed, is non-empty, trimmed, and 3 to 100 characters long |
| `Text.TrimStart` | src/validators/events.validator.js:5 | drops exactly the leading whitespace |
| `Text.TrimEnd` | src/validators/events.validator.js:5 | drops exactly the trailing whitespace |
| `Text.IsSpace` | src/validators/events.validator.js:5 | every line terminator is white space, and no ASCII letter or digit is |
| `Text.Trim` | src/validators/auth.validator.js:5 | the result is no longer than the input and, unless empty, starts and ends with a non-space character |
| `Text.TrimIsCore` | src/validators/events.validator.js:5 | the trimmed string is the slice of the original between two runs of whitespace, and starts and ends with a non-space character unless empty |
| `Text.TrimIdempotent` | src/validators/events.validator.js:5 | trimming twice is trimming once |
| `Text.TrimEmpty` | src/validators/events.validator.js:5-6 | a trimmed string is empty iff the original is all whitespace |
| `Text.DecimalRoundTrip` | src/validators/events.validator.js:19 | the decimal text of a number is an integer text that reads back as that number |
| `AuthValidator.NameErrors` | src/validators/auth.validator.js:4-11 | passes iff the trimmed name has 2 to 50 characters, all letters a–z, A–Z, À–ÿ, whitespace, `-` or `'` |
| `AuthValidator.MatchesNamePattern` | src/validators/auth.validator.js:10-11 | a matching name is non-empty and holds no digit |
| `AuthValidator.RegisterEmailErrors` | src/validators/auth.validator.js:13-21 | passes iff the trimmed email is non-empty, an email address, and at most 100 characters once normalized |
| `AuthValidator.PasswordErrors` | src/validators/auth.validator.js:23-31 | passes iff the password has 6 to 100 characters and at least one a–z, one A–Z and one digit before its first line break |
| `AuthValidator.MatchesPasswordPattern` | src/validators/auth.validator.js:28-29 | a matching password has at least three characters before its first line break |
| `AuthValidator.RegisterErrors` | src/validators/auth.validator.js:3-32 | registration passes iff the name, email and password each pass |
| `AuthValidator.LoginErrors` | src/validators/auth.validator.js:34-44 | login passes iff the trimmed email is non-empty and an email address and the password is non-empty |
| `AuthValidator.FirstLine` | src/validators/auth.validator.js:28 | the longest prefix free of JavaScript line terminators |
| `AuthValidator.PasswordPatternOnOneLine` | src/validators/auth.validator.js:28 | the pattern holds iff the first line has a lower-case letter, an upper-case letter and a digit |
| `AuthValidator.LineBreakHidesRequiredCharacters` | src/validators/auth.validator.js:28 | characters after a line break do not count: any password whose first line has no capital letter, such as "abcdef\nA1", fails the pattern and is rejected as weak |
| `AuthValidator.LetterNamesPass` | src/validators/auth.validator.js:10 | every name of 2 to 50 characters from a–z, A–Z and À–ÿ passes; that range includes the signs × and ÷ |
| `LegacyServer.WithoutId` | server.js:348 | keeps exactly the entries whose id differs |
| `LegacyServer.WithoutIdDistributes` | server.js:348 | the filter distributes over concatenation, so the kept entries keep their relative order |
| `LegacyServer.WithoutAbsentId` | server.js:348 | a queue with no entry of that id is left as it is |
| `LegacyServer.WithoutIdIdempotent` | server.js:348 | filtering twice is filtering once |
| `LegacyServer.AcceptThenPlay` | server.js:318-348 | playing a request just pushed by an accept gives the earlier queue without that id |
| `LegacyServer.LegacyRequest.constructor` | server.js:291-303 | a new request object is pending, takes the song's fields, and has user name `Anonyme` by default |
| `LegacyServer.LegacyEvent.constructor` | server.js:35-40 | a new event object has an empty queue and the name `Soirée Gym` by default |
| `LegacyServer.Server.CreateEvent` | server.js:31-51 | a fresh event object with the given name or `Soirée Gym`, created at now and with an empty queue, is stored under the id, replacing any earlier one |
| `LegacyServer.Server.RequestSong` | server.js:283-309 | an unknown event creates nothing; otherwise a fresh pending request object is stored under the id, holding the song's name, artist, album, image, URI and duration, the socket, the user name or `Anonyme`, and created at now |
| `LegacyServer.Server.AcceptRequest` | server.js:311-325 | a missing request or event changes nothing; otherwise the same request object is marked accepted and appended to that event's queue, the reported position is the new queue length, and no other object changes |
| `LegacyServer.Server.RejectRequest` | server.js:327-336 | an existing request object is marked rejected; no queue changes and no event is looked up |
| `LegacyServer.Server.ReorderQueue` | server.js:338-343 | a known event's queue becomes exactly the supplied list of newly decoded objects, none of them a stored request; other events are untouched |
| `LegacyServer.Server.MarkPlayed` | server.js:345-350 | a known event's queue loses every entry with that id and keeps the rest in order; no status changes |

## Left out

- Socket.IO rooms and emits are left out. Replies are returned values, and room notifications either are returned values or are not modelled.
- Concurrency is left out: each handler is one atomic step. The races between reading and writing (rate-limit check and increment, duplicate check and insert, maximum position and update) are not modelled.
- The `try`/`catch` database-error paths are left out. One exception is `toggleDuplicates` on an unknown event, where reading `rows[0]` fails and the route answers 500; the model reports that as `None`.
- UUID generation and the clock are parameters. Fresh ids are a `requires` where the column is a primary key; the prototype overwrites silently.
- `isEmail`, `normalizeEmail` and `isUUID` come from the validator library. They are function parameters, not definitions.
- `isLength` counts code points. The library's special treatment of variation selectors is not modelled.
- Route middleware chaining is not composed into one function per route. The gates and validators are separate functions, except for `DetailedStats`, which includes its route's 401 gate.
- QR codes, Spotify, bcrypt, sessions, the `setInterval` janitor schedule and the other controllers are foreign calls or wiring outside this model.
- `EventsController.DetailedStats`: does not model `avg_votes` (a decimal average), `topSongs`, `topArtists` or the played timeline. It also does not model the ordering and `LIMIT 10` of `mostVoted`. The most-voted rows are given in table order.
- `EventsController.EventStats`: `COUNT(DISTINCT r.id)` is a row count here. The two agree because `id` is the primary key (`Store.Database.Valid`).
- `QueueService.FirstLiveMatch`: the row order of an unordered `SELECT` is unspecified, so "first" is only some matching row.
- `EventHandlers.UpdateEventSettings`: the flags are `Option<bool>`, so truthy non-boolean values sent by a client are not modelled.
- `EventsController.ToggleVotes` and `EventsController.ToggleAutoAccept`: the flag is a `bool`. A missing or non-boolean `enabled` is not modelled. The `toggle-auto-accept` route has no boolean validator (src/routes/events.routes.js:71-78), so a body without `enabled` writes NULL into `auto_accept_enabled`, which later reads as false, and replies with an undefined flag.
- `EventHandlers.Submit`: the one-count guarantee is stated for windows of at least a minute. A window of 0 would let the second rate-limit check reset the fresh count. Validation and `Database.Valid` exclude such windows.
- `LegacyServer.Server.ReorderQueue`: the payload's entries are modelled as request objects. In the prototype they are plain decoded objects that need not have a request's shape. After a reorder the queue no longer shares objects with `requests`, so a later reject or accept of the stored object is not seen through those queue entries.
- Each legacy request object holds the song fields the prototype stores. The prototype's `new Date()` is the `now` parameter.
