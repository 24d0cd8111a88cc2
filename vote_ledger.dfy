/**
 * The vote ledger behind the `vote` handler: at most one row per (request,
 * voter); a first vote inserts a row, the same vote again deletes it, the
 * opposite vote flips it in place.
 */
module VoteLedger {

  import opened Store
  import opened QueueService

  predicate Casts(v: Vote, requestId: RequestId, socketId: SocketId) {
    v.requestId == requestId && v.socketId == socketId
  }

  /** `SELECT id, vote_type FROM votes WHERE request_id = ? AND socket_id = ?` is non-empty. */
  predicate HasVoted(votes: map<nat, Vote>, requestId: RequestId, socketId: SocketId) {
    exists k :: k in votes && Casts(votes[k], requestId, socketId)
  }

  /** The type of the voter's current vote on the request, if any. */
  function PriorVote(votes: map<nat, Vote>, requestId: RequestId, socketId: SocketId): (p: Option<VoteType>)
    ensures p.None? <==> !HasVoted(votes, requestId, socketId)
    ensures AtMostOneVotePerVoter(votes) ==>
      forall k :: k in votes && Casts(votes[k], requestId, socketId) ==> p == Some(votes[k].voteType)
  {
    if exists k :: k in votes && Casts(votes[k], requestId, socketId) && votes[k].voteType == Up then Some(Up)
    else if exists k :: k in votes && Casts(votes[k], requestId, socketId) && votes[k].voteType == Down then Some(Down)
    else None
  }

  function Opposite(t: VoteType): (o: VoteType)
    ensures o != t
  {
    if t == Up then Down else Up
  }

  /**
   * The vote table after the voter casts `t` on the request: with no row, a new
   * row under the next auto-increment id; with a row of the same type, that row
   * deleted; with a row of the other type, that row's type set to `t`.
   */
  function Toggled(votes: map<nat, Vote>, nextId: nat, requestId: RequestId, socketId: SocketId, t: VoteType): (r: map<nat, Vote>)
    ensures forall k :: k in r ==> k in votes || k == nextId
    ensures forall k :: k in votes && k != nextId && !Casts(votes[k], requestId, socketId) ==> k in r && r[k] == votes[k]
    ensures forall k :: k in r && Casts(r[k], requestId, socketId) ==> r[k].voteType == t
    ensures !HasVoted(votes, requestId, socketId) ==> HasVoted(r, requestId, socketId)
  {
    if HasVoted(votes, requestId, socketId) then
      map k | k in votes && !(Casts(votes[k], requestId, socketId) && votes[k].voteType == t) ::
        if Casts(votes[k], requestId, socketId) then Vote(requestId, socketId, t) else votes[k]
    else
      var r := votes[nextId := Vote(requestId, socketId, t)];
      assert nextId in r && Casts(r[nextId], requestId, socketId);
      r
  }

  /** The auto-increment value after the toggle: only an insert consumes an id. */
  function NextIdAfter(votes: map<nat, Vote>, nextId: nat, requestId: RequestId, socketId: SocketId): nat {
    if HasVoted(votes, requestId, socketId) then nextId else nextId + 1
  }

  /** With at most one row per voter, the toggle is the single-row delete or update the handler performs. */
  lemma ToggleRow(votes: map<nat, Vote>, nextId: nat, requestId: RequestId, socketId: SocketId, t: VoteType, k: nat)
    requires AtMostOneVotePerVoter(votes)
    requires k in votes && Casts(votes[k], requestId, socketId)
    ensures Toggled(votes, nextId, requestId, socketId, t) ==
      if votes[k].voteType == t then votes - {k} else votes[k := Vote(requestId, socketId, t)]
  {
    var after := Toggled(votes, nextId, requestId, socketId, t);
    var expected := if votes[k].voteType == t then votes - {k} else votes[k := Vote(requestId, socketId, t)];
    forall j | j in votes && j != k ensures !Casts(votes[j], requestId, socketId) {
    }
    assert after.Keys == expected.Keys;
    forall j | j in after ensures after[j] == expected[j] {
    }
  }

  lemma VotesOfInsert(votes: map<nat, Vote>, n: nat, v: Vote, requestId: RequestId, t: VoteType)
    requires n !in votes
    ensures VotesOf(votes[n := v], requestId, t) ==
      VotesOf(votes, requestId, t) + (if v.requestId == requestId && v.voteType == t then {n} else {})
  {
  }

  lemma VotesOfRemove(votes: map<nat, Vote>, k: nat, requestId: RequestId, t: VoteType)
    ensures VotesOf(votes - {k}, requestId, t) == VotesOf(votes, requestId, t) - {k}
  {
  }

  lemma VotesOfUpdate(votes: map<nat, Vote>, k: nat, v: Vote, requestId: RequestId, t: VoteType)
    requires k in votes
    ensures VotesOf(votes[k := v], requestId, t) ==
      (VotesOf(votes, requestId, t) - {k}) + (if v.requestId == requestId && v.voteType == t then {k} else {})
  {
  }

  /** The toggle keeps one row per voter and ids below the auto-increment value. */
  lemma ToggleKeepsLedger(votes: map<nat, Vote>, nextId: nat, requestId: RequestId, socketId: SocketId, t: VoteType)
    requires AtMostOneVotePerVoter(votes) && KeysBelow(votes, nextId)
    ensures AtMostOneVotePerVoter(Toggled(votes, nextId, requestId, socketId, t))
    ensures KeysBelow(Toggled(votes, nextId, requestId, socketId, t), NextIdAfter(votes, nextId, requestId, socketId))
  {
    if HasVoted(votes, requestId, socketId) {
      var k :| k in votes && Casts(votes[k], requestId, socketId);
      ToggleRow(votes, nextId, requestId, socketId, t, k);
    } else {
      var after := Toggled(votes, nextId, requestId, socketId, t);
      forall a, b | a in after && b in after && a != b
        ensures !(after[a].requestId == after[b].requestId && after[a].socketId == after[b].socketId)
      {
        if a == nextId {
          assert !Casts(votes[b], requestId, socketId);
        } else if b == nextId {
          assert !Casts(votes[a], requestId, socketId);
        }
      }
    }
  }

  /**
   * How one vote moves the tallies of the request: a first vote adds one of its
   * type; repeating the current vote removes it; the opposite vote moves one
   * from the old type to the new.
   */
  lemma {:induction false} ToggleCounts(votes: map<nat, Vote>, nextId: nat, requestId: RequestId, socketId: SocketId, t: VoteType)
    requires AtMostOneVotePerVoter(votes) && KeysBelow(votes, nextId)
    ensures var after := Toggled(votes, nextId, requestId, socketId, t);
      match PriorVote(votes, requestId, socketId)
      case None =>
        && CountVotes(after, requestId, t) == CountVotes(votes, requestId, t) + 1
        && CountVotes(after, requestId, Opposite(t)) == CountVotes(votes, requestId, Opposite(t))
      case Some(p) =>
        if p == t then
          && CountVotes(after, requestId, t) == CountVotes(votes, requestId, t) - 1
          && CountVotes(after, requestId, Opposite(t)) == CountVotes(votes, requestId, Opposite(t))
        else
          && CountVotes(after, requestId, t) == CountVotes(votes, requestId, t) + 1
          && CountVotes(after, requestId, p) == CountVotes(votes, requestId, p) - 1
  {
    var v := Vote(requestId, socketId, t);
    if HasVoted(votes, requestId, socketId) {
      var k :| k in votes && Casts(votes[k], requestId, socketId);
      ToggleRow(votes, nextId, requestId, socketId, t, k);
      if votes[k].voteType == t {
        RetractCounts(votes, k, requestId, t);
      } else {
        FlipCounts(votes, k, v, requestId);
      }
    } else {
      assert nextId !in votes;
      VotesOfInsert(votes, nextId, v, requestId, t);
      VotesOfInsert(votes, nextId, v, requestId, Opposite(t));
    }
  }

  /** Deleting a vote row of type `t` lowers that tally by one and leaves the other. */
  lemma RetractCounts(votes: map<nat, Vote>, k: nat, requestId: RequestId, t: VoteType)
    requires k in votes && votes[k].requestId == requestId && votes[k].voteType == t
    ensures CountVotes(votes - {k}, requestId, t) == CountVotes(votes, requestId, t) - 1
    ensures CountVotes(votes - {k}, requestId, Opposite(t)) == CountVotes(votes, requestId, Opposite(t))
  {
    assert k in VotesOf(votes, requestId, t);
    VotesOfRemove(votes, k, requestId, t);
    VotesOfRemove(votes, k, requestId, Opposite(t));
  }

  /** Setting a row's type to the other one moves one vote from the old tally to the new. */
  lemma FlipCounts(votes: map<nat, Vote>, k: nat, v: Vote, requestId: RequestId)
    requires k in votes && votes[k].requestId == requestId && v.requestId == requestId
    requires v.voteType != votes[k].voteType
    ensures CountVotes(votes[k := v], requestId, v.voteType) == CountVotes(votes, requestId, v.voteType) + 1
    ensures CountVotes(votes[k := v], requestId, votes[k].voteType) == CountVotes(votes, requestId, votes[k].voteType) - 1
  {
    var p := votes[k].voteType;
    assert k in VotesOf(votes, requestId, p);
    assert k !in VotesOf(votes, requestId, v.voteType);
    VotesOfUpdate(votes, k, v, requestId, v.voteType);
    VotesOfUpdate(votes, k, v, requestId, p);
  }

  /** A vote on one request leaves every other request's tallies as they were. */
  lemma {:induction false} ToggleLeavesOtherRequests(
    votes: map<nat, Vote>, nextId: nat, requestId: RequestId, socketId: SocketId, t: VoteType, other: RequestId, u: VoteType)
    requires AtMostOneVotePerVoter(votes) && KeysBelow(votes, nextId)
    requires other != requestId
    ensures CountVotes(Toggled(votes, nextId, requestId, socketId, t), other, u) == CountVotes(votes, other, u)
  {
    var v := Vote(requestId, socketId, t);
    if HasVoted(votes, requestId, socketId) {
      var k :| k in votes && Casts(votes[k], requestId, socketId);
      ToggleRow(votes, nextId, requestId, socketId, t, k);
      assert k !in VotesOf(votes, other, u);
      if votes[k].voteType == t {
        VotesOfRemove(votes, k, other, u);
      } else {
        VotesOfUpdate(votes, k, v, other, u);
      }
    } else {
      assert nextId !in votes;
      VotesOfInsert(votes, nextId, v, other, u);
    }
  }

  /** From no vote, casting the same vote twice gives back exactly the vote table it started from. */
  lemma {:induction false} TwiceFromNoVote(votes: map<nat, Vote>, nextId: nat, requestId: RequestId, socketId: SocketId, t: VoteType)
    requires KeysBelow(votes, nextId)
    requires !HasVoted(votes, requestId, socketId)
    ensures var once := Toggled(votes, nextId, requestId, socketId, t);
      Toggled(once, NextIdAfter(votes, nextId, requestId, socketId), requestId, socketId, t) == votes
  {
    var once := Toggled(votes, nextId, requestId, socketId, t);
    assert nextId !in votes;
    assert once == votes[nextId := Vote(requestId, socketId, t)];
    assert HasVoted(once, requestId, socketId) by {
      assert nextId in once && Casts(once[nextId], requestId, socketId);
    }
    var twice := Toggled(once, nextId + 1, requestId, socketId, t);
    assert twice.Keys == votes.Keys;
  }

  /**
   * Casting the vote one already holds twice (retract, then vote again) gives
   * back every tally, though the row comes back under a new id.
   */
  lemma {:induction false} TwiceFromSameVote(votes: map<nat, Vote>, nextId: nat, requestId: RequestId, socketId: SocketId, t: VoteType, r: RequestId, u: VoteType)
    requires AtMostOneVotePerVoter(votes) && KeysBelow(votes, nextId)
    requires PriorVote(votes, requestId, socketId) == Some(t)
    ensures var once := Toggled(votes, nextId, requestId, socketId, t);
      var twice := Toggled(once, NextIdAfter(votes, nextId, requestId, socketId), requestId, socketId, t);
      CountVotes(twice, r, u) == CountVotes(votes, r, u)
  {
    var next1 := NextIdAfter(votes, nextId, requestId, socketId);
    var once := Toggled(votes, nextId, requestId, socketId, t);
    ToggleKeepsLedger(votes, nextId, requestId, socketId, t);
    ToggleCounts(votes, nextId, requestId, socketId, t);
    var k :| k in votes && Casts(votes[k], requestId, socketId);
    ToggleRow(votes, nextId, requestId, socketId, t, k);
    assert !HasVoted(once, requestId, socketId);
    ToggleCounts(once, next1, requestId, socketId, t);
    if r != requestId {
      ToggleLeavesOtherRequests(votes, nextId, requestId, socketId, t, r, u);
      ToggleLeavesOtherRequests(once, next1, requestId, socketId, t, r, u);
    } else if u != t {
      assert u == Opposite(t);
    }
  }

  /**
   * Casting twice the opposite of the vote one holds (flip, then retract) does
   * not give back the earlier vote: the voter ends with no vote, and the tally
   * of the earlier type is one lower than before.
   */
  lemma {:induction false} TwiceFromOppositeVote(votes: map<nat, Vote>, nextId: nat, requestId: RequestId, socketId: SocketId, t: VoteType)
    requires AtMostOneVotePerVoter(votes) && KeysBelow(votes, nextId)
    requires PriorVote(votes, requestId, socketId) == Some(Opposite(t))
    ensures var once := Toggled(votes, nextId, requestId, socketId, t);
      var twice := Toggled(once, NextIdAfter(votes, nextId, requestId, socketId), requestId, socketId, t);
      && !HasVoted(twice, requestId, socketId)
      && CountVotes(twice, requestId, Opposite(t)) == CountVotes(votes, requestId, Opposite(t)) - 1
      && CountVotes(twice, requestId, t) == CountVotes(votes, requestId, t)
  {
    var next1 := NextIdAfter(votes, nextId, requestId, socketId);
    var once := Toggled(votes, nextId, requestId, socketId, t);
    ToggleKeepsLedger(votes, nextId, requestId, socketId, t);
    ToggleCounts(votes, nextId, requestId, socketId, t);
    var k :| k in votes && Casts(votes[k], requestId, socketId);
    ToggleRow(votes, nextId, requestId, socketId, t, k);
    assert once[k] == Vote(requestId, socketId, t);
    assert PriorVote(once, requestId, socketId) == Some(t);
    ToggleCounts(once, next1, requestId, socketId, t);
    var twice := Toggled(once, next1, requestId, socketId, t);
    ToggleRow(once, next1, requestId, socketId, t, k);
    assert twice == once - {k};
    assert !HasVoted(twice, requestId, socketId) by {
      forall j | j in twice ensures !Casts(twice[j], requestId, socketId) {
        assert j in once && j != k;
      }
    }
  }
}
