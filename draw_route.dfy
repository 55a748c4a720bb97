/**
 * `POST /api/draw`: stores every giver's receiver with the service role, then
 * marks the session as drawn.
 *
 * Each Supabase update is a guarded map over the table's rows (every row whose
 * `id` matches is changed); an update may fail, in which case it changes
 * nothing. `failed` names the positions of the participant updates that
 * fail and `sessionWriteFails` whether the session update does. The updates,
 * which the route issues together with `Promise.all`, are applied in order.
 */
module DrawRoute {
  import opened Wrappers
  import opened Database
  import opened Http
  import DrawAlgorithm

  type Pair = DrawAlgorithm.Pair

  /** The parsed JSON body; an absent or null field is None. */
  datatype DrawBody = DrawBody(sessionId: Option<string>, assignments: Option<seq<Pair>>)

  const InvalidRequest := Response(400, Some("Invalid request"))
  const SaveFailed := Response(500, Some("Failed to save some assignments"))
  const StatusFailed := Response(500, Some("Failed to update session status"))

  /** The negation of `!sessionId || !assignments || assignments.length === 0`. */
  predicate IsValidRequest(body: DrawBody) {
    && body.sessionId.Some? && body.sessionId.value != ""
    && body.assignments.Some? && |body.assignments.value| > 0
  }

  /** `.update({ assigned_to_id: receiver }).eq('id', giver)` */
  function AssignTo(rows: seq<ParticipantRow>, giver: string, receiver: string): (r: seq<ParticipantRow>)
    ensures |r| == |rows|
  {
    seq(|rows|, k requires 0 <= k < |rows| =>
      if rows[k].id == giver then rows[k].(assignedToId := Some(receiver)) else rows[k])
  }

  /** The participants table after the first `k` updates. */
  function ApplyWrites(rows: seq<ParticipantRow>, pairs: seq<Pair>, failed: set<nat>, k: nat): (r: seq<ParticipantRow>)
    requires k <= |pairs|
    ensures |r| == |rows|
  {
    if k == 0 then rows
    else
      var prev := ApplyWrites(rows, pairs, failed, k - 1);
      if k - 1 in failed then prev else AssignTo(prev, pairs[k - 1].giverId, pairs[k - 1].receiverId)
  }

  predicate AnyFailed(n: nat, failed: set<nat>) {
    exists k :: 0 <= k < n && k in failed
  }

  /** `.update({ status: 'drawn' }).eq('id', sessionId)` */
  function MarkDrawn(sessions: seq<SessionRow>, id: string): (r: seq<SessionRow>)
    ensures |r| == |sessions|
  {
    seq(|sessions|, k requires 0 <= k < |sessions| =>
      if sessions[k].id == id then sessions[k].(status := Drawn) else sessions[k])
  }

  datatype Outcome = Outcome(response: Response, participants: seq<ParticipantRow>, sessions: seq<SessionRow>)

  /** What the route answers and leaves in the two tables. */
  function PostOutcome(participants: seq<ParticipantRow>, sessions: seq<SessionRow>, body: DrawBody,
                       failed: set<nat>, sessionWriteFails: bool): Outcome
  {
    if !IsValidRequest(body) then Outcome(InvalidRequest, participants, sessions)
    else
      var pairs := body.assignments.value;
      var written := ApplyWrites(participants, pairs, failed, |pairs|);
      if AnyFailed(|pairs|, failed) then Outcome(SaveFailed, written, sessions)
      else if sessionWriteFails then Outcome(StatusFailed, written, sessions)
      else Outcome(Ok, written, MarkDrawn(sessions, body.sessionId.value))
  }

  /** The route handler. */
  method Post(db: Store, body: DrawBody, failed: set<nat>, sessionWriteFails: bool) returns (response: Response)
    modifies db
    ensures Outcome(response, db.participants, db.sessions)
         == PostOutcome(old(db.participants), old(db.sessions), body, failed, sessionWriteFails)
  {
    if body.sessionId.None? || body.sessionId.value == "" || body.assignments.None? || |body.assignments.value| == 0 {
      return InvalidRequest;
    }
    var assignments := body.assignments.value;
    var errors: seq<nat> := [];
    for k := 0 to |assignments|
      invariant db.participants == ApplyWrites(old(db.participants), assignments, failed, k)
      invariant db.sessions == old(db.sessions)
      invariant forall e :: e in errors <==> e < k && e in failed
    {
      if k in failed {
        errors := errors + [k];
      } else {
        db.participants := AssignTo(db.participants, assignments[k].giverId, assignments[k].receiverId);
      }
    }
    assert |errors| > 0 <==> AnyFailed(|assignments|, failed) by {
      if |errors| > 0 { assert errors[0] in errors; }
    }
    if |errors| > 0 {
      return SaveFailed;
    }
    if sessionWriteFails {
      return StatusFailed;
    }
    db.sessions := MarkDrawn(db.sessions, body.sessionId.value);
    return Ok;
  }

  // ---------------------------------------------------------------------------
  // Properties

  predicate IsGiver(pairs: seq<Pair>, id: string) {
    exists t :: 0 <= t < |pairs| && pairs[t].giverId == id
  }

  predicate DistinctGivers(pairs: seq<Pair>) {
    forall t, u :: 0 <= t < |pairs| && 0 <= u < |pairs| && t != u ==> pairs[t].giverId != pairs[u].giverId
  }

  /** The writes touch only `assigned_to_id`, and only in rows of givers. */
  lemma {:induction false} ApplyWritesFrame(rows: seq<ParticipantRow>, pairs: seq<Pair>, failed: set<nat>, k: nat)
    requires k <= |pairs|
    ensures var out := ApplyWrites(rows, pairs, failed, k);
      forall r :: 0 <= r < |rows| ==>
        && out[r] == rows[r].(assignedToId := out[r].assignedToId)
        && (!IsGiver(pairs[..k], rows[r].id) ==> out[r] == rows[r])
  {
    if k > 0 {
      ApplyWritesFrame(rows, pairs, failed, k - 1);
      var out := ApplyWrites(rows, pairs, failed, k);
      forall r | 0 <= r < |rows| && !IsGiver(pairs[..k], rows[r].id)
        ensures !IsGiver(pairs[..k - 1], rows[r].id) && out[r] == rows[r]
      {
        assert pairs[..k][k - 1].giverId != rows[r].id;
      }
    }
  }

  /** With distinct givers, a giver's row ends up with the receiver of its own
      pair if that update succeeded, and keeps its old value if it failed:
      nothing is rolled back. */
  lemma {:induction false} ApplyWritesEffect(rows: seq<ParticipantRow>, pairs: seq<Pair>, failed: set<nat>, k: nat)
    requires k <= |pairs| && DistinctGivers(pairs)
    ensures var out := ApplyWrites(rows, pairs, failed, k);
      forall r, t :: 0 <= r < |rows| && 0 <= t < k && rows[r].id == pairs[t].giverId ==>
        out[r].assignedToId == if t in failed then rows[r].assignedToId else Some(pairs[t].receiverId)
  {
    if k > 0 {
      ApplyWritesEffect(rows, pairs, failed, k - 1);
      ApplyWritesFrame(rows, pairs, failed, k - 1);
      var prev := ApplyWrites(rows, pairs, failed, k - 1);
      forall r, t | 0 <= r < |rows| && 0 <= t < k && rows[r].id == pairs[t].giverId
        ensures ApplyWrites(rows, pairs, failed, k)[r].assignedToId
             == if t in failed then rows[r].assignedToId else Some(pairs[t].receiverId)
      {
        assert prev[r].id == rows[r].id;
      }
    }
  }

  /** A valid request whose writes all succeed stores every pair, whatever the
      session's status was before: there is no guard against drawing again. */
  lemma {:induction false} AllWritesStored(participants: seq<ParticipantRow>, sessions: seq<SessionRow>, body: DrawBody,
                        sessionWriteFails: bool)
    requires IsValidRequest(body) && DistinctGivers(body.assignments.value)
    ensures var out := PostOutcome(participants, sessions, body, {}, sessionWriteFails);
      var pairs := body.assignments.value;
      && out.response == (if sessionWriteFails then StatusFailed else Ok)
      && (forall r, t :: 0 <= r < |participants| && 0 <= t < |pairs| && participants[r].id == pairs[t].giverId ==>
            out.participants[r].assignedToId == Some(pairs[t].receiverId))
      && (forall r :: 0 <= r < |participants| && !IsGiver(pairs, participants[r].id) ==>
            out.participants[r] == participants[r])
  {
    var pairs := body.assignments.value;
    ApplyWritesEffect(participants, pairs, {}, |pairs|);
    ApplyWritesFrame(participants, pairs, {}, |pairs|);
    assert pairs[..|pairs|] == pairs;
  }

  /** The session changes only in a 200 answer, only after every participant
      write has succeeded, and then only its `status`, which becomes drawn.
      In every other answer the sessions table is left as it was. */
  lemma {:induction false} SessionDrawnOnlyOnSuccess(participants: seq<ParticipantRow>, sessions: seq<SessionRow>,
                                 body: DrawBody, failed: set<nat>, sessionWriteFails: bool)
    ensures var out := PostOutcome(participants, sessions, body, failed, sessionWriteFails);
      && |out.sessions| == |sessions|
      && (out.response != Ok ==> out.sessions == sessions)
      && (out.response == Ok <==>
            IsValidRequest(body) && !AnyFailed(|body.assignments.value|, failed) && !sessionWriteFails)
      && (out.response == Ok ==> forall k :: 0 <= k < |sessions| ==>
            out.sessions[k] == if sessions[k].id == body.sessionId.value
                               then sessions[k].(status := Drawn) else sessions[k])
  {
  }

  /** A failed participant write answers 500 and leaves the sessions table,
      while the writes that did succeed stay in the participants table. */
  lemma {:induction false} WriteFailureKeepsPartialWrites(participants: seq<ParticipantRow>, sessions: seq<SessionRow>,
                                       body: DrawBody, failed: set<nat>, sessionWriteFails: bool)
    requires IsValidRequest(body) && DistinctGivers(body.assignments.value)
    requires AnyFailed(|body.assignments.value|, failed)
    ensures var out := PostOutcome(participants, sessions, body, failed, sessionWriteFails);
      var pairs := body.assignments.value;
      && out.response == SaveFailed
      && out.sessions == sessions
      && forall r, t ::
           (0 <= r < |participants| && 0 <= t < |pairs| && t !in failed && participants[r].id == pairs[t].giverId) ==>
             out.participants[r].assignedToId == Some(pairs[t].receiverId)
  {
    var pairs := body.assignments.value;
    ApplyWritesEffect(participants, pairs, failed, |pairs|);
  }

  /** A request missing its session id or its assignments, or with none,
      answers 400 and writes nothing. */
  lemma {:induction false} InvalidRequestWritesNothing(participants: seq<ParticipantRow>, sessions: seq<SessionRow>,
                                    body: DrawBody, failed: set<nat>, sessionWriteFails: bool)
    requires body.sessionId.None? || body.sessionId == Some("") || body.assignments.None? || body.assignments == Some([])
    ensures PostOutcome(participants, sessions, body, failed, sessionWriteFails)
         == Outcome(InvalidRequest, participants, sessions)
  {
  }
}
