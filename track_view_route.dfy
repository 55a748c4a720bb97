/**
 * `POST /api/reveal/track-view`: records, once, when a participant first
 * opens their reveal page.
 *
 * The lookup is `.eq('participant_token', token).single()`, which yields a row
 * only when exactly one row carries the token. `fetchFails` and `updateFails`
 * say whether the two queries fail; `now` is the ISO timestamp the route reads
 * from the clock.
 */
module TrackViewRoute {
  import opened Wrappers
  import opened Database
  import opened Http

  /** The parsed JSON body; an absent or null token is None. */
  datatype TrackBody = TrackBody(token: Option<string>)

  const TokenRequired := Response(400, Some("Token is required"))
  const InvalidToken := Response(404, Some("Invalid token"))
  const UpdateFailed := Response(500, Some("Update failed"))

  /** The positions from `from` on whose participant token is `token`, in increasing order. */
  function Matching(rows: seq<ParticipantRow>, token: string, from: nat): (r: seq<nat>)
    requires from <= |rows|
    ensures forall i :: i in r <==> from <= i < |rows| && rows[i].participantToken == token
    ensures forall a :: 0 <= a < |r| ==> from <= r[a]
    ensures forall a, b :: 0 <= a < b < |r| ==> r[a] < r[b]
    decreases |rows| - from
  {
    if from == |rows| then []
    else
      var rest := Matching(rows, token, from + 1);
      if rows[from].participantToken == token then [from] + rest else rest
  }

  /** `.single()`: the position of the one row carrying the token. */
  function SingleByToken(rows: seq<ParticipantRow>, token: string): (r: Option<nat>)
    ensures r.Some? ==> r.value < |rows| && rows[r.value].participantToken == token
    ensures r.Some? ==> forall j :: 0 <= j < |rows| && rows[j].participantToken == token ==> j == r.value
  {
    var m := Matching(rows, token, 0);
    if |m| == 1 then (assert m[0] in m; Some(m[0])) else None
  }

  /** `!participant.reveal_viewed_at`: null or the empty string. */
  predicate NotYetViewed(viewedAt: Option<string>) {
    viewedAt.None? || viewedAt == Some("")
  }

  /** `.update({ reveal_viewed_at: now }).eq('id', id)` */
  function MarkViewed(rows: seq<ParticipantRow>, id: string, now: string): (r: seq<ParticipantRow>)
    ensures |r| == |rows|
  {
    seq(|rows|, k requires 0 <= k < |rows| =>
      if rows[k].id == id then rows[k].(revealViewedAt := Some(now)) else rows[k])
  }

  /** What the route answers and leaves in the participants table. */
  function TrackOutcome(rows: seq<ParticipantRow>, body: TrackBody, now: string,
                        fetchFails: bool, updateFails: bool): (Response, seq<ParticipantRow>)
  {
    if body.token.None? || body.token.value == "" then (TokenRequired, rows)
    else if fetchFails then (InvalidToken, rows)
    else match SingleByToken(rows, body.token.value)
      case None => (InvalidToken, rows)
      case Some(i) =>
        if !NotYetViewed(rows[i].revealViewedAt) then (Ok, rows)
        else if updateFails then (UpdateFailed, rows)
        else (Ok, MarkViewed(rows, rows[i].id, now))
  }

  /** The route handler. */
  method Post(db: Store, body: TrackBody, now: string, fetchFails: bool, updateFails: bool)
    returns (response: Response)
    modifies db
    ensures (response, db.participants) == TrackOutcome(old(db.participants), body, now, fetchFails, updateFails)
    ensures db.sessions == old(db.sessions)
  {
    if body.token.None? || body.token.value == "" {
      return TokenRequired;
    }
    var participant := SingleByToken(db.participants, body.token.value);
    if fetchFails || participant.None? {
      return InvalidToken;
    }
    var i := participant.value;
    if NotYetViewed(db.participants[i].revealViewedAt) {
      if updateFails {
        return UpdateFailed;
      }
      db.participants := MarkViewed(db.participants, db.participants[i].id, now);
    }
    return Ok;
  }

  // ---------------------------------------------------------------------------
  // Properties

  /** `.single()` finds nothing exactly when no row, or more than one row,
      carries the token. */
  lemma {:induction false} SingleByTokenNone(rows: seq<ParticipantRow>, token: string, i: nat)
    requires SingleByToken(rows, token).None?
    requires i < |rows| && rows[i].participantToken == token
    ensures exists j :: 0 <= j < |rows| && j != i && rows[j].participantToken == token
  {
    var m := Matching(rows, token, 0);
    assert i in m;
    assert |m| >= 2;
    assert m[0] in m && m[1] in m;
    if m[0] != i {
      assert rows[m[0]].participantToken == token;
    } else {
      assert rows[m[1]].participantToken == token;
    }
  }

  /** The lookup depends on the tokens alone. */
  lemma {:induction false} MatchingSameTokens(rows: seq<ParticipantRow>, rows': seq<ParticipantRow>, token: string, from: nat)
    requires |rows| == |rows'| && from <= |rows|
    requires forall k :: 0 <= k < |rows| ==> rows[k].participantToken == rows'[k].participantToken
    ensures Matching(rows, token, from) == Matching(rows', token, from)
    decreases |rows| - from
  {
    if from < |rows| {
      MatchingSameTokens(rows, rows', token, from + 1);
    }
  }

  /** A first view with a known token stores `now` in that participant's row
      and changes no other row. */
  lemma {:induction false} FirstViewRecorded(rows: seq<ParticipantRow>, token: string, now: string, i: nat)
    requires UniqueIds(rows)
    requires i < |rows| && rows[i].participantToken == token && token != ""
    requires forall j :: 0 <= j < |rows| && rows[j].participantToken == token ==> j == i
    requires NotYetViewed(rows[i].revealViewedAt)
    ensures var (response, out) := TrackOutcome(rows, TrackBody(Some(token)), now, false, false);
      && response == Ok
      && |out| == |rows|
      && out[i] == rows[i].(revealViewedAt := Some(now))
      && forall k :: 0 <= k < |rows| && k != i ==> out[k] == rows[k]
  {
    var m := Matching(rows, token, 0);
    assert i in m;
    if |m| != 1 {
      SingleByTokenNone(rows, token, i);
    }
  }

  /** A timestamp once stored is never overwritten, and no call stores one in
      a row other than the token's. */
  lemma {:induction false} ViewedAtSetOnce(rows: seq<ParticipantRow>, body: TrackBody, now: string,
                                           fetchFails: bool, updateFails: bool)
    requires UniqueIds(rows)
    ensures var (_, out) := TrackOutcome(rows, body, now, fetchFails, updateFails);
      && |out| == |rows|
      && forall k :: 0 <= k < |rows| ==>
           && out[k] == rows[k].(revealViewedAt := out[k].revealViewedAt)
           && (!NotYetViewed(rows[k].revealViewedAt) ==> out[k] == rows[k])
           && (body.token.None? || rows[k].participantToken != body.token.value ==> out[k] == rows[k])
  {
    var (_, out) := TrackOutcome(rows, body, now, fetchFails, updateFails);
    if out != rows {
      var i := SingleByToken(rows, body.token.value).value;
      forall k | 0 <= k < |rows| && k != i
        ensures out[k] == rows[k]
      {
        assert rows[k].id != rows[i].id;
      }
    }
  }

  /** Opening the reveal page again answers 200 and changes nothing: the view
      is recorded at most once. */
  lemma {:induction false} SecondViewChangesNothing(rows: seq<ParticipantRow>, body: TrackBody, now: string, later: string,
                                 fetchFails: bool, updateFails: bool, updateFailsLater: bool)
    requires now != ""
    requires TrackOutcome(rows, body, now, fetchFails, updateFails).0 == Ok
    ensures var out := TrackOutcome(rows, body, now, fetchFails, updateFails).1;
      TrackOutcome(out, body, later, false, updateFailsLater) == (Ok, out)
  {
    var out := TrackOutcome(rows, body, now, fetchFails, updateFails).1;
    var token := body.token.value;
    MatchingSameTokens(rows, out, token, 0);
  }

  /** Every answer other than 200 leaves the table as it was; 400 exactly
      when the token is missing, 404 exactly when the lookup fails. */
  lemma {:induction false} ErrorsWriteNothing(rows: seq<ParticipantRow>, body: TrackBody, now: string,
                                              fetchFails: bool, updateFails: bool)
    ensures var (response, out) := TrackOutcome(rows, body, now, fetchFails, updateFails);
      && (response != Ok ==> out == rows)
      && (response == TokenRequired <==> body.token.None? || body.token == Some(""))
      && (response == InvalidToken <==>
            body.token.Some? && body.token != Some("") &&
            (fetchFails || SingleByToken(rows, body.token.value).None?))
  {
  }
}
