/**
 * The assignment engine: a random derangement of the participants by
 * rejection sampling over Fisher–Yates shuffles, and the client-side draw
 * that turns it into the request for the draw route.
 *
 * `Math.floor(Math.random() * (i + 1))` is an injected oracle:
 * `random(attempt, i)` proposes the index for pass `i` of attempt `attempt`
 * (attempts are numbered from 1). `Pick` keeps a proposal in `[0, i]` and
 * caps a larger one at `i`, so every index in `[0, i]` can be chosen and no
 * other can.
 */
module DrawAlgorithm {
  import opened Wrappers
  import opened Database

  const MinParticipants: nat := 3
  const MaxAttempts: nat := 1000

  datatype DrawError = TooFewParticipants | NoValidAssignment {
    function Message(): string {
      match this
      case TooFewParticipants => "Mindestens 3 Teilnehmer ben\U{F6}tigt f\U{FC}r die Auslosung"
      case NoValidAssignment => "Konnte keine g\U{FC}ltige Zuteilung nach maximalen Versuchen generieren"
    }
  }

  type Random = (nat, nat) -> nat

  function Pick(random: Random, attempt: nat, i: nat): (j: nat)
    ensures j <= i
    ensures random(attempt, i) <= i ==> j == random(attempt, i)
  {
    if random(attempt, i) <= i then random(attempt, i) else i
  }

  // ---------------------------------------------------------------------------
  // Sequences of ids

  predicate Distinct<T(==)>(s: seq<T>) {
    forall k, l :: 0 <= k < |s| && 0 <= l < |s| && k != l ==> s[k] != s[l]
  }

  function Ids(ps: seq<ParticipantAdmin>): (r: seq<string>)
    ensures |r| == |ps|
  {
    seq(|ps|, i requires 0 <= i < |ps| => ps[i].id)
  }

  predicate DistinctIds(ps: seq<ParticipantAdmin>) {
    Distinct(Ids(ps))
  }

  // ---------------------------------------------------------------------------
  // A JavaScript Map<string, string> as its entries in insertion order

  type Entries = seq<(string, string)>

  function Keys(m: Entries): (r: seq<string>)
    ensures |r| == |m|
  {
    seq(|m|, i requires 0 <= i < |m| => m[i].0)
  }

  function Values(m: Entries): (r: seq<string>)
    ensures |r| == |m|
  {
    seq(|m|, i requires 0 <= i < |m| => m[i].1)
  }

  /** `m.set(k, v)`: an existing key keeps its place and takes the new value;
      a new key is appended. */
  function MapSet(m: Entries, k: string, v: string): Entries {
    if m == [] then [(k, v)]
    else if m[0].0 == k then [(k, v)] + m[1..]
    else [m[0]] + MapSet(m[1..], k, v)
  }

  /** After `set`, the map holds the new entry, every other entry was there
      before, and a key that was absent lands at the end. */
  lemma {:induction false} MapSetEntries(m: Entries, k: string, v: string)
    ensures (k, v) in MapSet(m, k, v)
    ensures forall e :: e in MapSet(m, k, v) ==> e == (k, v) || e in m
    ensures (forall e :: e in m ==> e.0 != k) ==> MapSet(m, k, v) == m + [(k, v)]
  {
    if m != [] && m[0].0 != k {
      MapSetEntries(m[1..], k, v);
      assert forall e :: e in m[1..] ==> e in m;
      assert m == [m[0]] + m[1..];
    }
  }

  // ---------------------------------------------------------------------------
  // Fisher–Yates

  function Swap<T>(s: seq<T>, i: nat, j: nat): (r: seq<T>)
    requires i < |s| && j < |s|
    ensures |r| == |s|
  {
    s[i := s[j]][j := s[i]]
  }

  /** The passes `i, i - 1, ..., 1` of the shuffle in attempt `attempt`. */
  function ShuffleDown<T>(s: seq<T>, random: Random, attempt: nat, i: nat): (r: seq<T>)
    requires i < |s|
    ensures |r| == |s|
    decreases i
  {
    if i == 0 then s else ShuffleDown(Swap(s, i, Pick(random, attempt, i)), random, attempt, i - 1)
  }

  /** `shuffled` after the `for` loop of attempt `attempt`. */
  function Shuffle<T>(s: seq<T>, random: Random, attempt: nat): (r: seq<T>)
    ensures |r| == |s|
  {
    if |s| == 0 then s else ShuffleDown(s, random, attempt, |s| - 1)
  }

  /** Every pass swaps two elements, so a shuffle is a permutation. */
  lemma {:induction false} ShuffleDownPermutes<T>(s: seq<T>, random: Random, attempt: nat, i: nat)
    requires i < |s|
    ensures multiset(ShuffleDown(s, random, attempt, i)) == multiset(s)
    ensures Distinct(s) ==> Distinct(ShuffleDown(s, random, attempt, i))
    decreases i
  {
    if i > 0 {
      var j := Pick(random, attempt, i);
      var t := Swap(s, i, j);
      assert multiset(t) == multiset(s);
      assert Distinct(s) ==> Distinct(t) by {
        if Distinct(s) {
          forall k, l | 0 <= k < |t| && 0 <= l < |t| && k != l ensures t[k] != t[l] {
            var k' := if k == i then j else if k == j then i else k;
            var l' := if l == i then j else if l == j then i else l;
            assert t[k] == s[k'] && t[l] == s[l'];
          }
        }
      }
      ShuffleDownPermutes(t, random, attempt, i - 1);
    }
  }

  lemma {:induction false} ShufflePermutes<T>(s: seq<T>, random: Random, attempt: nat)
    ensures multiset(Shuffle(s, random, attempt)) == multiset(s)
    ensures Distinct(s) ==> Distinct(Shuffle(s, random, attempt))
  {
    if |s| > 0 { ShuffleDownPermutes(s, random, attempt, |s| - 1); }
  }

  /** The shuffle never looks at the elements, so it commutes with taking ids. */
  lemma {:induction false} IdsOfShuffleDown(s: seq<ParticipantAdmin>, random: Random, attempt: nat, i: nat)
    requires i < |s|
    ensures Ids(ShuffleDown(s, random, attempt, i)) == ShuffleDown(Ids(s), random, attempt, i)
    decreases i
  {
    if i > 0 {
      var j := Pick(random, attempt, i);
      assert Ids(Swap(s, i, j)) == Swap(Ids(s), i, j);
      IdsOfShuffleDown(Swap(s, i, j), random, attempt, i - 1);
    }
  }

  lemma {:induction false} IdsOfShuffle(s: seq<ParticipantAdmin>, random: Random, attempt: nat)
    ensures Ids(Shuffle(s, random, attempt)) == Shuffle(Ids(s), random, attempt)
  {
    if |s| > 0 { IdsOfShuffleDown(s, random, attempt, |s| - 1); }
  }

  // ---------------------------------------------------------------------------
  // The specification of generateDerangement

  /** The validity check: nobody draws themselves. */
  predicate NoSelfAssignment(ps: seq<ParticipantAdmin>, sh: seq<ParticipantAdmin>)
    requires |ps| == |sh|
  {
    forall i :: 0 <= i < |ps| ==> ps[i].id != sh[i].id
  }

  predicate ValidAttempt(ps: seq<ParticipantAdmin>, random: Random, attempt: nat) {
    NoSelfAssignment(ps, Shuffle(ps, random, attempt))
  }

  /** The map after `assignments.set(participants[i].id, shuffled[i].id)` for `i < k`. */
  function Pairing(ps: seq<ParticipantAdmin>, sh: seq<ParticipantAdmin>, k: nat): Entries
    requires |ps| == |sh| && k <= |ps|
  {
    if k == 0 then [] else MapSet(Pairing(ps, sh, k - 1), ps[k - 1].id, sh[k - 1].id)
  }

  function Accepted(ps: seq<ParticipantAdmin>, random: Random, attempt: nat): Entries {
    var sh := Shuffle(ps, random, attempt);
    Pairing(ps, sh, |ps|)
  }

  /** The outcome once `done` attempts have failed. */
  function AttemptsFrom(ps: seq<ParticipantAdmin>, random: Random, done: nat): Result<Entries, DrawError>
    requires done <= MaxAttempts
    decreases MaxAttempts - done
  {
    if done == MaxAttempts then Failure(NoValidAssignment)
    else if ValidAttempt(ps, random, done + 1) then Success(Accepted(ps, random, done + 1))
    else AttemptsFrom(ps, random, done + 1)
  }

  /** What `generateDerangement(ps)` returns or throws for the draws `random`. */
  function Outcome(ps: seq<ParticipantAdmin>, random: Random): Result<Entries, DrawError> {
    if |ps| < MinParticipants then Failure(TooFewParticipants) else AttemptsFrom(ps, random, 0)
  }

  // ---------------------------------------------------------------------------
  // The engine

  /** The `for` loop of one attempt: Fisher–Yates in place, `i` from `n - 1` down to 1. */
  method FisherYates(shuffled: array<ParticipantAdmin>, random: Random, attempt: nat)
    modifies shuffled
    ensures shuffled[..] == Shuffle(old(shuffled[..]), random, attempt)
  {
    var n := shuffled.Length;
    if n == 0 {
      return;
    }
    var i := n - 1;
    while i > 0
      invariant 0 <= i < n
      invariant ShuffleDown(shuffled[..], random, attempt, i) == Shuffle(old(shuffled[..]), random, attempt)
    {
      var j := Pick(random, attempt, i);
      ghost var before := shuffled[..];
      shuffled[i], shuffled[j] := shuffled[j], shuffled[i];
      assert shuffled[..] == Swap(before, i, j);
      i := i - 1;
    }
  }

  /** The validity loop: stops at the first position where a participant
      would draw themselves. */
  method CheckNoSelfAssignment(participants: seq<ParticipantAdmin>, shuffled: array<ParticipantAdmin>)
    returns (isValid: bool)
    requires shuffled.Length == |participants|
    ensures isValid == NoSelfAssignment(participants, shuffled[..])
  {
    var n := |participants|;
    isValid := true;
    var i := 0;
    while i < n
      invariant 0 <= i <= n
      invariant forall m :: 0 <= m < i ==> participants[m].id != shuffled[m].id
    {
      if participants[i].id == shuffled[i].id {
        isValid := false;
        break;
      }
      i := i + 1;
    }
  }

  /** The loop that fills the map of an accepted attempt. */
  method FillAssignments(participants: seq<ParticipantAdmin>, shuffled: array<ParticipantAdmin>)
    returns (assignments: Entries)
    requires shuffled.Length == |participants|
    ensures assignments == Pairing(participants, shuffled[..], |participants|)
  {
    assignments := [];
    for i := 0 to |participants|
      invariant assignments == Pairing(participants, shuffled[..], i)
    {
      assignments := MapSet(assignments, participants[i].id, shuffled[i].id);
    }
  }

  /** One pass of the retry loop: copy, shuffle, check, and on success fill
      the map. */
  method Attempt(participants: seq<ParticipantAdmin>, random: Random, attempt: nat)
    returns (isValid: bool, assignments: Entries)
    ensures isValid == ValidAttempt(participants, random, attempt)
    ensures isValid ==> assignments == Accepted(participants, random, attempt)
    ensures isValid ==> forall e :: e in assignments ==> e.0 != e.1
  {
    var n := |participants|;
    var shuffled := new ParticipantAdmin[n](k requires 0 <= k < n => participants[k]);
    assert shuffled[..] == participants;
    FisherYates(shuffled, random, attempt);
    isValid := CheckNoSelfAssignment(participants, shuffled);
    assignments := [];
    if isValid {
      assignments := FillAssignments(participants, shuffled);
      PairingNoFixedPoint(participants, shuffled[..], n);
    }
  }

  /** `generateDerangement`. */
  method GenerateDerangement(participants: seq<ParticipantAdmin>, random: Random)
    returns (r: Result<Entries, DrawError>)
    ensures r == Outcome(participants, random)
    ensures r.Success? ==> forall e :: e in r.value ==> e.0 != e.1
  {
    if |participants| < MinParticipants {
      return Failure(TooFewParticipants);
    }
    ghost var outcome := AttemptsFrom(participants, random, 0);
    assert Outcome(participants, random) == outcome;
    var attempts := 0;
    while attempts < MaxAttempts
      invariant attempts <= MaxAttempts
      invariant AttemptsFrom(participants, random, attempts) == outcome
    {
      var isValid, assignments := Attempt(participants, random, attempts + 1);
      if isValid {
        assert AttemptsFrom(participants, random, attempts) == Success(assignments);
        return Success(assignments);
      }
      assert AttemptsFrom(participants, random, attempts) == AttemptsFrom(participants, random, attempts + 1);
      attempts := attempts + 1;
    }
    return Failure(NoValidAssignment);
  }

  // ---------------------------------------------------------------------------
  // Properties of the outcome

  lemma {:induction false} PairingNoFixedPoint(ps: seq<ParticipantAdmin>, sh: seq<ParticipantAdmin>, k: nat)
    requires |ps| == |sh| && k <= |ps| && NoSelfAssignment(ps, sh)
    ensures forall e :: e in Pairing(ps, sh, k) ==> e.0 != e.1
  {
    if k > 0 {
      PairingNoFixedPoint(ps, sh, k - 1);
      MapSetEntries(Pairing(ps, sh, k - 1), ps[k - 1].id, sh[k - 1].id);
    }
  }

  /** With distinct ids every `set` appends, so the map pairs position with position. */
  lemma {:induction false} PairingOfDistinct(ps: seq<ParticipantAdmin>, sh: seq<ParticipantAdmin>, k: nat)
    requires |ps| == |sh| && k <= |ps| && DistinctIds(ps)
    ensures Pairing(ps, sh, k) == seq(k, i requires 0 <= i < k => (ps[i].id, sh[i].id))
  {
    if k > 0 {
      PairingOfDistinct(ps, sh, k - 1);
      var prev := Pairing(ps, sh, k - 1);
      forall e | e in prev ensures e.0 != ps[k - 1].id {
        var i :| 0 <= i < k - 1 && prev[i] == e;
        assert Ids(ps)[i] == ps[i].id && Ids(ps)[k - 1] == ps[k - 1].id;
      }
      MapSetEntries(prev, ps[k - 1].id, sh[k - 1].id);
    }
  }

  /** The attempt whose shuffle a successful outcome returns: the first valid one. */
  lemma {:induction false} AttemptsFromSuccess(ps: seq<ParticipantAdmin>, random: Random, done: nat)
    returns (t: nat)
    requires done <= MaxAttempts && AttemptsFrom(ps, random, done).Success?
    ensures done < t <= MaxAttempts && ValidAttempt(ps, random, t)
    ensures forall u :: done < u < t ==> !ValidAttempt(ps, random, u)
    ensures AttemptsFrom(ps, random, done).value == Accepted(ps, random, t)
    decreases MaxAttempts - done
  {
    if ValidAttempt(ps, random, done + 1) {
      t := done + 1;
    } else {
      t := AttemptsFromSuccess(ps, random, done + 1);
      forall u | done < u < t ensures !ValidAttempt(ps, random, u) {
        if u == done + 1 {
        }
      }
    }
  }

  /** Accept-first: the first valid shuffle within the budget is the one returned. */
  lemma {:induction false} AttemptsFromFirstValid(ps: seq<ParticipantAdmin>, random: Random, done: nat, t: nat)
    requires done < t <= MaxAttempts && ValidAttempt(ps, random, t)
    requires forall u :: done < u < t ==> !ValidAttempt(ps, random, u)
    ensures AttemptsFrom(ps, random, done) == Success(Accepted(ps, random, t))
    decreases t - done
  {
    if done + 1 < t {
      AttemptsFromFirstValid(ps, random, done + 1, t);
    }
  }

  lemma {:induction false} AttemptsFromExhausted(ps: seq<ParticipantAdmin>, random: Random, done: nat)
    requires done <= MaxAttempts
    ensures AttemptsFrom(ps, random, done).Failure? <==>
      forall u :: done < u <= MaxAttempts ==> !ValidAttempt(ps, random, u)
    ensures AttemptsFrom(ps, random, done).Failure? ==>
      AttemptsFrom(ps, random, done).error == NoValidAssignment
    decreases MaxAttempts - done
  {
    if done < MaxAttempts {
      AttemptsFromExhausted(ps, random, done + 1);
      if ValidAttempt(ps, random, done + 1) {
        assert AttemptsFrom(ps, random, done).Success?;
      } else {
        assert AttemptsFrom(ps, random, done) == AttemptsFrom(ps, random, done + 1);
      }
    }
  }

  /** The engine returns the first valid shuffle among the 1000 attempts. */
  lemma {:induction false} AcceptFirst(ps: seq<ParticipantAdmin>, random: Random, t: nat)
    requires |ps| >= MinParticipants
    requires 1 <= t <= MaxAttempts && ValidAttempt(ps, random, t)
    requires forall u :: 1 <= u < t ==> !ValidAttempt(ps, random, u)
    ensures Outcome(ps, random) == Success(Accepted(ps, random, t))
  {
    AttemptsFromFirstValid(ps, random, 0, t);
  }

  /** It throws the budget error exactly when all 1000 shuffles have a fixed point,
      and the size error exactly when there are fewer than 3 participants. */
  lemma {:induction false} FailureCases(ps: seq<ParticipantAdmin>, random: Random)
    ensures Outcome(ps, random) == Failure(TooFewParticipants) <==> |ps| < MinParticipants
    ensures Outcome(ps, random) == Failure(NoValidAssignment) <==>
      |ps| >= MinParticipants && forall u :: 1 <= u <= MaxAttempts ==> !ValidAttempt(ps, random, u)
  {
    AttemptsFromExhausted(ps, random, 0);
  }

  /** The required shape of a result: every participant gives exactly once, in
      the participants' order, every participant receives exactly once, and
      nobody draws themselves. */
  predicate IsDerangementOf(ps: seq<ParticipantAdmin>, m: Entries) {
    && Keys(m) == Ids(ps)
    && multiset(Values(m)) == multiset(Ids(ps))
    && Distinct(Values(m))
    && forall i :: 0 <= i < |m| ==> m[i].0 != m[i].1
  }

  /** Every successful outcome over distinct ids is a derangement of them. */
  lemma {:induction false} OutcomeIsDerangement(ps: seq<ParticipantAdmin>, random: Random)
    requires DistinctIds(ps) && Outcome(ps, random).Success?
    ensures IsDerangementOf(ps, Outcome(ps, random).value)
  {
    var t := AttemptsFromSuccess(ps, random, 0);
    var sh := Shuffle(ps, random, t);
    var m := Outcome(ps, random).value;
    PairingOfDistinct(ps, sh, |ps|);
    IdsOfShuffle(ps, random, t);
    ShufflePermutes(Ids(ps), random, t);
    assert Values(m) == Ids(sh);
    assert Keys(m) == Ids(ps);
    forall i | 0 <= i < |m| ensures m[i].0 != m[i].1 {
      assert m[i] == (ps[i].id, sh[i].id);
    }
  }

  /** Without distinct ids a later `set` overwrites an earlier one, yet no
      entry ever maps a giver to itself. */
  lemma {:induction false} OutcomeHasNoFixedPoint(ps: seq<ParticipantAdmin>, random: Random)
    requires Outcome(ps, random).Success?
    ensures forall e :: e in Outcome(ps, random).value ==> e.0 != e.1
  {
    var t := AttemptsFromSuccess(ps, random, 0);
    PairingNoFixedPoint(ps, Shuffle(ps, random, t), |ps|);
  }

  /** Three participants: every successful draw is one of the two 3-cycles. */
  lemma {:induction false} ThreeParticipantsGiveACycle(ps: seq<ParticipantAdmin>, random: Random)
    requires |ps| == 3 && DistinctIds(ps) && Outcome(ps, random).Success?
    ensures var m := Outcome(ps, random).value;
      var (a, b, c) := (ps[0].id, ps[1].id, ps[2].id);
      m == [(a, b), (b, c), (c, a)] || m == [(a, c), (b, a), (c, b)]
  {
    var m := Outcome(ps, random).value;
    OutcomeIsDerangement(ps, random);
    var ids := Ids(ps);
    assert ids[0] == ps[0].id && ids[1] == ps[1].id && ids[2] == ps[2].id;
    ThreeIdsDerange(ids, m);
  }

  /** The two derangements of three distinct ids. */
  lemma {:induction false} ThreeIdsDerange(ids: seq<string>, m: Entries)
    requires |ids| == 3 && Distinct(ids)
    requires Keys(m) == ids && multiset(Values(m)) == multiset(ids) && Distinct(Values(m))
    requires forall i :: 0 <= i < |m| ==> m[i].0 != m[i].1
    ensures m == [(ids[0], ids[1]), (ids[1], ids[2]), (ids[2], ids[0])]
         || m == [(ids[0], ids[2]), (ids[1], ids[0]), (ids[2], ids[1])]
  {
    var vs := Values(m);
    assert m == [(ids[0], vs[0]), (ids[1], vs[1]), (ids[2], vs[2])] by {
      assert m[0] == (ids[0], vs[0]) && m[1] == (ids[1], vs[1]) && m[2] == (ids[2], vs[2]);
    }
    assert multiset(ids) == multiset{ids[0], ids[1], ids[2]} by {
      assert ids == [ids[0], ids[1], ids[2]];
    }
    assert vs[0] in multiset(vs) && vs[1] in multiset(vs) && vs[2] in multiset(vs);
    assert vs[0] != vs[1] && vs[1] != vs[2] && vs[0] != vs[2];
  }

  // ---------------------------------------------------------------------------
  // Concrete runs

  /** An oracle that always leaves every element in place makes every attempt
      the identity, so the engine gives up after its budget instead of looping. */
  function NeverMove(attempt: nat, i: nat): nat { i }

  function AlwaysZero(attempt: nat, i: nat): nat { 0 }

  lemma {:induction false} ShuffleDownStays<T>(s: seq<T>, attempt: nat, i: nat)
    requires i < |s|
    ensures ShuffleDown(s, NeverMove, attempt, i) == s
    decreases i
  {
    if i > 0 {
      assert Swap(s, i, i) == s;
      ShuffleDownStays(s, attempt, i - 1);
    }
  }

  lemma {:induction false} NeverMovingOracleExhausts(ps: seq<ParticipantAdmin>)
    requires |ps| >= MinParticipants
    ensures Outcome(ps, NeverMove) == Failure(NoValidAssignment)
  {
    var random: Random := NeverMove;
    forall u | 1 <= u <= MaxAttempts ensures !ValidAttempt(ps, random, u) {
      ShuffleDownStays(ps, u, |ps| - 1);
      assert Shuffle(ps, random, u)[0] == ps[0];
    }
    FailureCases(ps, random);
  }

  /** Three participants with ids 1, 2, 3 and an oracle that always picks 0:
      the first attempt is accepted and yields 1 -> 2, 2 -> 3, 3 -> 1. */
  lemma {:induction false} AlwaysZeroOracleOnThree(p1: ParticipantAdmin, p2: ParticipantAdmin, p3: ParticipantAdmin)
    requires p1.id == "1" && p2.id == "2" && p3.id == "3"
    ensures Outcome([p1, p2, p3], AlwaysZero) == Success([("1", "2"), ("2", "3"), ("3", "1")])
  {
    var ps := [p1, p2, p3];
    var random: Random := AlwaysZero;
    assert Swap(ps, 2, 0) == [p3, p2, p1];
    assert Swap([p3, p2, p1], 1, 0) == [p2, p3, p1];
    assert ShuffleDown([p2, p3, p1], random, 1, 0) == [p2, p3, p1];
    assert Shuffle(ps, random, 1) == [p2, p3, p1];
    assert ValidAttempt(ps, random, 1);
    assert DistinctIds(ps) by { assert Ids(ps) == ["1", "2", "3"]; }
    PairingOfDistinct(ps, [p2, p3, p1], 3);
    assert Accepted(ps, random, 1) == [("1", "2"), ("2", "3"), ("3", "1")];
    AcceptFirst(ps, random, 1);
  }

  // ---------------------------------------------------------------------------
  // performDraw

  datatype Pair = Pair(giverId: string, receiverId: string)

  /** The body `performDraw` posts to the draw route. */
  datatype DrawRequest = DrawRequest(sessionId: string, assignments: seq<Pair>)

  /** `Array.from(assignments.entries()).map(...)`. */
  function ToPairs(m: Entries): (r: seq<Pair>)
    ensures |r| == |m|
  {
    seq(|m|, i requires 0 <= i < |m| => Pair(m[i].0, m[i].1))
  }

  /** The test suite's checker (`isValidDerangement`): nobody draws themselves,
      and as many distinct givers and distinct receivers as pairs. */
  predicate IsValidDerangement(pairs: seq<Pair>) {
    && (forall i :: 0 <= i < |pairs| ==> pairs[i].giverId != pairs[i].receiverId)
    && |set i | 0 <= i < |pairs| :: pairs[i].giverId| == |pairs|
    && |set i | 0 <= i < |pairs| :: pairs[i].receiverId| == |pairs|
  }

  lemma {:induction false} DistinctCardinality(s: seq<string>)
    requires Distinct(s)
    ensures |set i | 0 <= i < |s| :: s[i]| == |s|
  {
    if s != [] {
      var init := s[..|s| - 1];
      assert Distinct(init);
      DistinctCardinality(init);
      var all := set i | 0 <= i < |s| :: s[i];
      var front := set i | 0 <= i < |init| :: init[i];
      assert all == front + {s[|s| - 1]};
      assert s[|s| - 1] !in front;
    }
  }

  /** A derangement of distinct ids passes the test suite's checker. */
  lemma {:induction false} DerangementPassesChecker(ps: seq<ParticipantAdmin>, m: Entries)
    requires DistinctIds(ps) && IsDerangementOf(ps, m)
    ensures IsValidDerangement(ToPairs(m))
  {
    var pairs := ToPairs(m);
    var gs := Keys(m);
    var rs := Values(m);
    DistinctCardinality(gs);
    DistinctCardinality(rs);
    assert forall i :: 0 <= i < |pairs| ==> pairs[i].giverId == gs[i] && pairs[i].receiverId == rs[i];
    assert (set i | 0 <= i < |pairs| :: pairs[i].giverId) == (set i | 0 <= i < |gs| :: gs[i]);
    assert (set i | 0 <= i < |pairs| :: pairs[i].receiverId) == (set i | 0 <= i < |rs| :: rs[i]);
  }

  /** `performDraw` up to its `fetch`: the size guard, then the engine, then
      the map flattened to pairs in insertion order. */
  method PerformDraw(sessionId: string, participants: seq<ParticipantAdmin>, random: Random)
    returns (r: Result<DrawRequest, DrawError>)
    ensures |participants| < MinParticipants ==> r == Failure(TooFewParticipants)
    ensures r.Failure? <==> Outcome(participants, random).Failure?
    ensures r.Failure? ==> r.error == Outcome(participants, random).error
    ensures r.Success? ==> r.value == DrawRequest(sessionId, ToPairs(Outcome(participants, random).value))
    ensures r.Success? ==> |r.value.assignments| > 0
    ensures r.Success? && DistinctIds(participants) ==>
      |r.value.assignments| == |participants| && IsValidDerangement(r.value.assignments)
  {
    if |participants| < MinParticipants {
      return Failure(TooFewParticipants);
    }
    var assignments := GenerateDerangement(participants, random);
    if assignments.Failure? {
      return Failure(assignments.error);
    }
    var pairs := ToPairs(assignments.value);
    PairsNonEmpty(participants, random);
    if DistinctIds(participants) {
      OutcomeIsDerangement(participants, random);
      DerangementPassesChecker(participants, assignments.value);
    }
    return Success(DrawRequest(sessionId, pairs));
  }

  lemma {:induction false} PairsNonEmpty(ps: seq<ParticipantAdmin>, random: Random)
    requires Outcome(ps, random).Success?
    ensures |Outcome(ps, random).value| > 0
  {
    var t := AttemptsFromSuccess(ps, random, 0);
    var sh := Shuffle(ps, random, t);
    MapSetEntries(Pairing(ps, sh, |ps| - 1), ps[|ps| - 1].id, sh[|ps| - 1].id);
  }
}
