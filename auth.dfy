/**
 * The access decisions of the three route middlewares: a session must carry
 * a DJ id, an event may be owned by one DJ, and a request either goes on to
 * the next handler or is answered with an HTTP status.
 */
module Auth {

  import opened Store

  datatype Decision = Next | Deny(status: nat)

  /** JavaScript truthiness of an optional DJ id: a missing id and 0 are falsy. */
  predicate IsSet(id: Option<DjId>)
    ensures !IsSet(id) <==> id == None || id == Some(0)
    ensures IsSet(id) ==> SameDj(id, id)
  {
    id.Some? && id.value != 0
  }

  /**
   * Strict equality between the `dj_id` column and the session's id: a NULL
   * column never equals the session's id, and neither does a missing session id.
   */
  predicate SameDj(owner: Option<DjId>, session: Option<DjId>)
    ensures SameDj(owner, session) <==> owner != None && owner == session
  {
    owner.Some? && session.Some? && owner.value == session.value
  }

  /** `requireAuth`: continue iff the session holds a DJ id, else 401. */
  function RequireAuth(session: Option<DjId>): (d: Decision)
    ensures d == Next <==> IsSet(session)
    ensures d != Next ==> d == Deny(401)
  {
    if !IsSet(session) then Deny(401) else Next
  }

  /** `requireEventOwnership`: 404 for an unknown event, 403 unless the session's DJ owns it. */
  function RequireEventOwnership(events: map<EventId, Event>, eventId: EventId, session: Option<DjId>): (d: Decision)
    ensures eventId !in events ==> d == Deny(404)
    ensures d == Next <==> eventId in events && SameDj(events[eventId].djId, session)
    ensures eventId in events && !SameDj(events[eventId].djId, session) ==> d == Deny(403)
  {
    if eventId !in events then Deny(404)
    else if !SameDj(events[eventId].djId, session) then Deny(403)
    else Next
  }

  /**
   * `requireEventAccess`: 404 for an unknown event; an anonymous caller always
   * continues; a logged-in caller is refused with 403 iff the event has an
   * owner other than them.
   */
  function RequireEventAccess(events: map<EventId, Event>, eventId: EventId, session: Option<DjId>): (d: Decision)
    ensures eventId !in events ==> d == Deny(404)
    ensures eventId in events && !IsSet(session) ==> d == Next
    ensures eventId in events && IsSet(session) ==>
      (d == Deny(403) <==> IsSet(events[eventId].djId) && !SameDj(events[eventId].djId, session))
    ensures d == Next || d == Deny(403) || d == Deny(404)
  {
    if eventId !in events then Deny(404)
    else if !IsSet(session) then Next
    else
      var owner := events[eventId].djId;
      if IsSet(owner) && !SameDj(owner, session) then Deny(403) else Next
  }

  /**
   * Ownership is the stricter gate: whatever passes `requireEventOwnership`
   * passes `requireEventAccess`, and an unowned event passes the access check
   * for everyone while every caller fails the ownership check on it.
   */
  lemma OwnershipImpliesAccess(events: map<EventId, Event>, eventId: EventId, session: Option<DjId>)
    ensures RequireEventOwnership(events, eventId, session) == Next ==> RequireEventAccess(events, eventId, session) == Next
    ensures eventId in events && events[eventId].djId.None? ==>
      RequireEventAccess(events, eventId, session) == Next && RequireEventOwnership(events, eventId, session) == Deny(403)
  {
  }
}
