/**
 * The request checks that run before the event routes: each check lists the
 * messages of every rule its field breaks (an empty list lets the request
 * through), after the `trim()` sanitizer where the chain has one.
 */
module EventsValidator {

  import opened Text

  datatype EventFieldError =
    | EventNameRequired | EventNameLength
    | EventIdRequired | EventIdInvalid
    | MaxOutOfRange | WindowOutOfRange
    | EnabledNotBoolean
    | QueryRequired | QueryLength

  /** `createEventValidator` on the body's `name`. */
  function CreateEventErrors(name: string): (errs: seq<EventFieldError>)
    ensures errs == [] <==> 3 <= |Trim(name)| <= 100
    ensures EventNameRequired in errs <==> forall k :: 0 <= k < |name| ==> IsSpace(name[k])
  {
    TrimEmpty(name);
    var t := Trim(name);
    (if |t| == 0 then [EventNameRequired] else [])
      + (if !(3 <= |t| <= 100) then [EventNameLength] else [])
  }

  /** `eventIdValidator`: present and a UUID, by the library's `isUUID`. */
  function EventIdErrors(eventId: string, isUUID: string -> bool): (errs: seq<EventFieldError>)
    ensures errs == [] <==> |eventId| > 0 && isUUID(eventId)
    ensures EventIdRequired in errs <==> eventId == []
  {
    (if |eventId| == 0 then [EventIdRequired] else [])
      + (if !isUUID(eventId) then [EventIdInvalid] else [])
  }

  /** `updateRateLimitValidator`: the event id, an integer `max` in 1..50 and an integer `window` in 1..120. */
  function RateLimitErrors(eventId: string, max: string, window: string, isUUID: string -> bool): (errs: seq<EventFieldError>)
    ensures errs == [] <==> EventIdErrors(eventId, isUUID) == [] && IsIntIn(max, 1, 50) && IsIntIn(window, 1, 120)
  {
    EventIdErrors(eventId, isUUID)
      + (if !IsIntIn(max, 1, 50) then [MaxOutOfRange] else [])
      + (if !IsIntIn(window, 1, 120) then [WindowOutOfRange] else [])
  }

  /**
   * `isBoolean()` with its default, strict set of spellings: lower-case words
   * of at most five letters, or a single digit.
   */
  predicate IsBooleanText(s: string)
    ensures IsBooleanText(s) ==> 1 <= |s| <= 5 && (|s| == 1 <==> IsDigit(s[0]))
    ensures IsBooleanText(s) ==> forall k :: 0 <= k < |s| ==> !('A' <= s[k] <= 'Z')
  {
    s == "true" || s == "false" || s == "1" || s == "0"
  }

  /** `toggleVotesValidator`: the event id and a boolean `enabled`. */
  function ToggleVotesErrors(eventId: string, enabled: string, isUUID: string -> bool): (errs: seq<EventFieldError>)
    ensures errs == [] <==> EventIdErrors(eventId, isUUID) == [] && IsBooleanText(enabled)
  {
    EventIdErrors(eventId, isUUID) + (if !IsBooleanText(enabled) then [EnabledNotBoolean] else [])
  }

  /** `spotifySearchValidator`: a trimmed query of 2 to 100 characters and an event id (not trimmed). */
  function SearchErrors(q: string, eventId: string, isUUID: string -> bool): (errs: seq<EventFieldError>)
    ensures errs == [] <==> 2 <= |Trim(q)| <= 100 && |eventId| > 0 && isUUID(eventId)
  {
    var t := Trim(q);
    (if |t| == 0 then [QueryRequired] else [])
      + (if !(2 <= |t| <= 100) then [QueryLength] else [])
      + EventIdErrors(eventId, isUUID)
  }

  /**
   * A rate-limit update that passes its checks carries limits the engine can
   * use: at least one request, over a window of at least one minute.
   */
  lemma AcceptedLimitsArePositive(eventId: string, max: string, window: string, isUUID: string -> bool)
    requires RateLimitErrors(eventId, max, window, isUUID) == []
    ensures 1 <= IntValue(max) <= 50 && 1 <= IntValue(window) <= 120
  {
  }

  /** Every in-range limit, sent as a JSON number, passes the integer checks with its own value. */
  lemma InRangeLimitsPass(max: nat, window: nat)
    requires 1 <= max <= 50 && 1 <= window <= 120
    ensures IsIntIn(Decimal(max), 1, 50) && IntValue(Decimal(max)) == max
    ensures IsIntIn(Decimal(window), 1, 120) && IntValue(Decimal(window)) == window
  {
    DecimalRoundTrip(max);
    DecimalRoundTrip(window);
  }

  /** The trimmed name stored by `createEvent` has 3 to 100 characters and no surrounding white space. */
  lemma AcceptedNameIsTrimmed(name: string)
    requires CreateEventErrors(name) == []
    ensures var t := Trim(name);
      3 <= |t| <= 100 && !IsSpace(t[0]) && !IsSpace(t[|t| - 1]) && Trim(t) == t
  {
    TrimIsCore(name);
    TrimIdempotent(name);
  }
}
