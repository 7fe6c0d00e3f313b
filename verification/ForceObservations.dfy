/**
 The three rewritings of `request.observations` in a Force run: the reservation of a
 selected candidate, the feedback carried to the next candidate, and the feedback of
 one rejected edit inside a validation chain.
 */
module ForceObservations {
  import opened Basics
  import opened ForceMemory

  function Keep(rows: seq<Observation>, which: Observation -> bool): seq<Observation> {
    if rows == [] then []
    else
      var last := rows[|rows| - 1];
      Keep(rows[..|rows| - 1], which) + if which(last) then [last] else []
  }

  lemma {:induction false} KeepKeeps(rows: seq<Observation>, which: Observation -> bool)
    ensures forall o :: o in Keep(rows, which) <==> o in rows && which(o)
    ensures |Keep(rows, which)| <= |rows|
  {
    if rows != [] {
      KeepKeeps(rows[..|rows| - 1], which);
      assert rows == rows[..|rows| - 1] + [rows[|rows| - 1]];
    }
  }

  function FirstN(rows: seq<Observation>, n: nat): seq<Observation> {
    if |rows| <= n then rows else rows[..n]
  }

  predicate IsFeedback(o: Observation) { o.stage == ValidationFeedback }

  predicate IsGuard(o: Observation) { o.source == SandboxMemory || o.source == PortfolioReservation }

  // What the planner's guard reads: at most one plain row per source.
  ghost predicate PlainGuards(observations: seq<Observation>) {
    && (forall o :: o in observations && IsGuard(o) ==>
          o.stage == NoStage && o.reason == NoReason && o.rejectedUnit == None && o.value.Rows?)
    && (forall i, j :: 0 <= i < j < |observations| && IsGuard(observations[i]) && IsGuard(observations[j]) ==>
          observations[i].source != observations[j].source)
  }

  // Every row the guard reads is still there.
  ghost predicate GuardsSurvive(before: seq<Observation>, after: seq<Observation>) {
    forall o :: o in before && IsGuard(o) ==> o in after
  }

  lemma SurvivingGuardsBlock(before: seq<Observation>, after: seq<Observation>,
                             digests: map<string, string>, mutations: seq<Mutation>)
    requires GuardsSurvive(before, after) && MemoryBlocks(before, digests, mutations)
    ensures MemoryBlocks(after, digests, mutations)
  {
  }

  /******* Reservation *******/

  function ReservationIndex(observations: seq<Observation>, from: nat): (i: int)
    requires from <= |observations|
    ensures i == -1 ==> forall j :: from <= j < |observations| ==>
              observations[j].source != PortfolioReservation || !observations[j].value.Rows?
    ensures i != -1 ==> from <= i < |observations| && observations[i].source == PortfolioReservation
                        && observations[i].value.Rows?
    decreases |observations| - from
  {
    if from == |observations| then -1
    else if observations[from].source == PortfolioReservation && observations[from].value.Rows? then from
    else ReservationIndex(observations, from + 1)
  }

  function LastFour(rows: seq<MemoryRow>): seq<MemoryRow> {
    if |rows| <= 4 then rows else rows[|rows| - 4..]
  }

  function ReservationRow(mutations: seq<Mutation>): MemoryRow {
    MemoryRow(OfMutations(mutations), NotHex(""), 0, OtherOutcome(""), Absent)
  }

  function Reservation(rows: seq<MemoryRow>): Observation {
    Observation(NoStage, PortfolioReservation, NoReason, None, false, Rows(rows))
  }

  function ReservedRows(observations: seq<Observation>): seq<MemoryRow> {
    var i := ReservationIndex(observations, 0);
    if i == -1 then [] else observations[i].value.rows
  }

  function Reserved(observations: seq<Observation>, mutations: seq<Mutation>): seq<Observation> {
    var i := ReservationIndex(observations, 0);
    var rows := LastFour(ReservedRows(observations) + [ReservationRow(mutations)]);
    if i == -1 then observations + [Reservation(rows)]
    else observations[i := observations[i].(value := Rows(rows))]
  }

  lemma ReservedIsPlain(observations: seq<Observation>, mutations: seq<Mutation>)
    requires PlainGuards(observations)
    ensures PlainGuards(Reserved(observations, mutations))
    ensures forall o :: o in observations && o.source == SandboxMemory ==> o in Reserved(observations, mutations)
  {
  }

  lemma OnlyReservation(observations: seq<Observation>, at: nat)
    requires PlainGuards(observations) && at < |observations| && observations[at].source == PortfolioReservation
    ensures ReservedRows(observations) == observations[at].value.rows
  {
  }

  // Reserving adds one row to the reservation, forgets none while there are fewer than
  // four, and leaves the other guard rows alone.
  lemma ReservingKeepsGuards(observations: seq<Observation>, mutations: seq<Mutation>)
    requires PlainGuards(observations) && |ReservedRows(observations)| < 4
    ensures PlainGuards(Reserved(observations, mutations))
    ensures ReservedRows(Reserved(observations, mutations)) == ReservedRows(observations) + [ReservationRow(mutations)]
    ensures forall o :: o in observations && o.source == SandboxMemory ==> o in Reserved(observations, mutations)
  {
    ReservedIsPlain(observations, mutations);
    var i := ReservationIndex(observations, 0);
    OnlyReservation(Reserved(observations, mutations), if i == -1 then |observations| else i);
  }

  // Any mutation list of a reserved candidate is blocked.
  lemma ReservationBlocks(observations: seq<Observation>, digests: map<string, string>, mutations: seq<Mutation>)
    requires Guarded(mutations, digests) && ReservationRow(mutations) in ReservedRows(observations)
    ensures MemoryBlocks(observations, digests, mutations)
  {
    var o := observations[ReservationIndex(observations, 0)];
    assert RowBlocks(ReservationRow(mutations), o.source, mutations, digests);
    assert ObservationBlocks(o, mutations, digests) && o in observations;
  }

  /******* Feedback carried to the next candidate *******/

  predicate IsCarried(o: Observation) {
    && o.stage != ValidationFeedback
    && o.source in {CensusCurrent, CensusSharded, TargetedRegression, SandboxMemory, PortfolioReservation}
  }

  function Evidence(observations: seq<Observation>): seq<Observation> {
    Keep(observations, IsCarried)
  }

  function Carried(observations: seq<Observation>, reason: Reason): seq<Observation> {
    [Observation(ValidationFeedback, PortfolioRejection, reason, None, false, Opaque(""))]
    + FirstN(Evidence(observations), 12)
  }

  lemma {:induction false} KeepKeepsGuardsPlain(rows: seq<Observation>)
    requires PlainGuards(rows)
    ensures PlainGuards(Evidence(rows))
  {
    if rows != [] {
      var front, last := rows[..|rows| - 1], rows[|rows| - 1];
      KeepKeepsGuardsPlain(front);
      KeepKeeps(front, IsCarried);
      var kept := Evidence(front);
      forall i | 0 <= i < |kept| && IsGuard(kept[i]) && IsGuard(last)
        ensures kept[i].source != last.source
      {
        assert kept[i] in front;
      }
    }
  }

  lemma CarryingKeepsGuards(observations: seq<Observation>, reason: Reason)
    requires PlainGuards(observations) && |Evidence(observations)| <= 12
    ensures PlainGuards(Carried(observations, reason))
    ensures GuardsSurvive(observations, Carried(observations, reason))
  {
    KeepKeeps(observations, IsCarried);
    KeepKeepsGuardsPlain(observations);
    var kept, after := Evidence(observations), Carried(observations, reason);
    assert after == [after[0]] + kept;
    assert forall i :: 1 <= i < |after| ==> after[i] == kept[i - 1];
  }

  // A reservation row that survives is still the one that is read.
  lemma CarryingKeepsReservation(observations: seq<Observation>, reason: Reason)
    requires PlainGuards(observations) && |Evidence(observations)| <= 12
    ensures ReservedRows(Carried(observations, reason)) == ReservedRows(observations)
  {
    CarryingKeepsGuards(observations, reason);
    KeepKeeps(observations, IsCarried);
    var after := Carried(observations, reason);
    var i, k := ReservationIndex(observations, 0), ReservationIndex(after, 0);
    if i != -1 {
      assert observations[i] in after;
    }
    if k != -1 {
      assert after[k] in observations;
    }
  }

  // The twelve-row cut forgets a fresh reservation exactly when twelve rows of evidence
  // stand in front of it: then the same candidate may be selected again.
  lemma ReservationSurvivesCarryExactly(observations: seq<Observation>, digests: map<string, string>,
                                        mutations: seq<Mutation>, reason: Reason)
    requires PlainGuards(observations) && ReservationIndex(observations, 0) == -1
    requires Guarded(mutations, digests) && !MemoryBlocks(observations, digests, mutations)
    ensures MemoryBlocks(Carried(Reserved(observations, mutations), reason), digests, mutations)
            <==> |Evidence(observations)| <= 11
  {
    var reserved := Reserved(observations, mutations);
    var reservation := Reservation([ReservationRow(mutations)]);
    assert LastFour([] + [ReservationRow(mutations)]) == [ReservationRow(mutations)];
    assert reserved == observations + [reservation];
    assert reserved[..|reserved| - 1] == observations;
    assert Evidence(reserved) == Evidence(observations) + [reservation];
    ReservingKeepsGuards(observations, mutations);
    if |Evidence(observations)| <= 11 {
      CarryingKeepsReservation(reserved, reason);
      ReservationBlocks(Carried(reserved, reason), digests, mutations);
    } else {
      KeepKeeps(observations, IsCarried);
      var after := Carried(reserved, reason);
      assert forall o :: o in after ==> o == after[0] || o in Evidence(observations);
    }
  }

  /******* Feedback of a rejected edit *******/

  predicate IsRequired(o: Observation) {
    o.source in {CensusCurrent, TargetedRegression, SandboxMemory, PortfolioReservation}
  }

  // The fields by which retained rows are compared.
  function Key(o: Observation): (Stage, Source, Reason, Option<string>) {
    (o.stage, o.source, o.reason, o.rejectedUnit)
  }

  predicate NamesUnit(reason: Reason) {
    reason == CausallyEmptyDeletion || reason == NoOpEdit || reason == RemovedLiveBinding
  }

  // The same live-binding error on the same unit was reported before.
  predicate RepeatedLiveBinding(observations: seq<Observation>, unit: string) {
    exists o :: o in observations && o.stage == ValidationFeedback && o.reason == RemovedLiveBinding
                && o.rejectedUnit == Some(unit)
  }

  predicate Rotates(observations: seq<Observation>, reason: Reason, unit: Option<string>) {
    NamesUnit(reason) && unit.Some? && (reason != RemovedLiveBinding || RepeatedLiveBinding(observations, unit.value))
  }

  function FeedbackRow(observations: seq<Observation>, reason: Reason, unit: Option<string>): Observation {
    Observation(ValidationFeedback, NoSource, reason, if NamesUnit(reason) then unit else None,
                Rotates(observations, reason, unit), Opaque(""))
  }

  function Keys(rows: seq<Observation>): set<(Stage, Source, Reason, Option<string>)> {
    set o | o in rows :: Key(o)
  }

  // Only the first row of each key.
  function FirstOfEachKey(rows: seq<Observation>): seq<Observation> {
    if rows == [] then []
    else
      var front, last := FirstOfEachKey(rows[..|rows| - 1]), rows[|rows| - 1];
      if Key(last) in Keys(front) then front else front + [last]
  }

  function Retained(observations: seq<Observation>, reason: Reason, unit: Option<string>): seq<Observation> {
    [FeedbackRow(observations, reason, unit)]
    + FirstN(Keep(observations, IsFeedback), 3) + Keep(observations, IsRequired)
  }

  function AfterRejection(observations: seq<Observation>, reason: Reason, unit: Option<string>): seq<Observation> {
    FirstOfEachKey(Retained(observations, reason, unit))
  }

  method ValidationFeedbackFor(observations: seq<Observation>, reason: Reason, unit: Option<string>)
    returns (after: seq<Observation>)
    ensures after == AfterRejection(observations, reason, unit)
  {
    var feedback := FeedbackRow(observations, reason, unit);
    var prior := FirstN(Keep(observations, IsFeedback), 3);
    var retained := [feedback] + prior + Keep(observations, IsRequired);
    var seen: set<(Stage, Source, Reason, Option<string>)> := {};
    after := [];
    for i := 0 to |retained|
      invariant after == FirstOfEachKey(retained[..i]) && seen == Keys(after)
    {
      assert retained[..i + 1][..i] == retained[..i];
      if Key(retained[i]) !in seen {
        seen := seen + {Key(retained[i])};
        after := after + [retained[i]];
      }
    }
    assert retained[..|retained|] == retained;
  }

  ghost predicate DistinctKeys(rows: seq<Observation>) {
    forall i, j :: 0 <= i < j < |rows| ==> Key(rows[i]) != Key(rows[j])
  }

  lemma KeysOfOneMore(rows: seq<Observation>, o: Observation)
    ensures Keys(rows + [o]) == Keys(rows) + {Key(o)}
  {
  }

  lemma {:induction false} FirstOfEachKeyKeeps(rows: seq<Observation>)
    ensures Keys(FirstOfEachKey(rows)) == Keys(rows)
    ensures forall o :: o in FirstOfEachKey(rows) ==> o in rows
  {
    if rows != [] {
      var front, last := rows[..|rows| - 1], rows[|rows| - 1];
      FirstOfEachKeyKeeps(front);
      assert rows == front + [last];
      KeysOfOneMore(front, last);
      KeysOfOneMore(FirstOfEachKey(front), last);
    }
  }

  lemma {:induction false} FirstOfEachKeyIsDistinct(rows: seq<Observation>)
    ensures DistinctKeys(FirstOfEachKey(rows))
  {
    if rows != [] {
      FirstOfEachKeyIsDistinct(rows[..|rows| - 1]);
      var front := FirstOfEachKey(rows[..|rows| - 1]);
      assert forall i :: 0 <= i < |front| ==> front[i] in front && Key(front[i]) in Keys(front);
    }
  }

  // A row that no other row shares its key with is kept.
  lemma LoneKeyIsKept(rows: seq<Observation>, o: Observation)
    requires o in rows && forall p :: p in rows && Key(p) == Key(o) ==> p == o
    ensures o in FirstOfEachKey(rows)
  {
    FirstOfEachKeyKeeps(rows);
    assert Key(o) in Keys(FirstOfEachKey(rows));
  }

  // No rejection inside a chain loses the negative memory or a reservation.
  lemma RejectionKeepsGuards(observations: seq<Observation>, reason: Reason, unit: Option<string>)
    requires PlainGuards(observations)
    ensures PlainGuards(AfterRejection(observations, reason, unit))
    ensures GuardsSurvive(observations, AfterRejection(observations, reason, unit))
  {
    var rows := Retained(observations, reason, unit);
    KeepKeeps(observations, IsFeedback);
    KeepKeeps(observations, IsRequired);
    FirstOfEachKeyKeeps(rows);
    FirstOfEachKeyIsDistinct(rows);
    assert forall o :: o in rows && IsGuard(o) ==> o in observations;
    forall o | o in observations && IsGuard(o)
      ensures o in FirstOfEachKey(rows)
    {
      LoneKeyIsKept(rows, o);
    }
  }

  /******* Excluded units *******/

  predicate Excludes(o: Observation) {
    && o.stage == ValidationFeedback && o.rejectedUnit.Some?
    && (o.reason == CausallyEmptyDeletion || o.reason == NoOpEdit || (o.reason == RemovedLiveBinding && o.rotate))
  }

  function Excluded(observations: seq<Observation>): set<string> {
    set o | o in observations && Excludes(o) :: o.rejectedUnit.value
  }

  method RejectedForceUnits(observations: seq<Observation>) returns (units: set<string>)
    ensures units == Excluded(observations)
  {
    units := {};
    for i := 0 to |observations|
      invariant units == Excluded(observations[..i])
    {
      assert observations[..i + 1] == observations[..i] + [observations[i]];
      if Excludes(observations[i]) {
        units := units + {observations[i].rejectedUnit.value};
      }
    }
    assert observations[..|observations|] == observations;
  }

  // At most n pieces of feedback, none repeating another's key and none that would be
  // retained as evidence.
  ghost predicate BoundedFeedback(observations: seq<Observation>, n: nat) {
    && |Keep(observations, IsFeedback)| <= n && DistinctKeys(Keep(observations, IsFeedback))
    && forall o :: o in observations && IsFeedback(o) ==> !IsRequired(o)
  }

  // Main result for a chain: a rejection adds at most its own unit to the excluded
  // ones and drops none, although only three older pieces of feedback are retained and
  // a row may be replaced by a newer one with the same key.
  lemma RejectionOnlyAddsExclusions(observations: seq<Observation>, reason: Reason, unit: Option<string>)
    requires BoundedFeedback(observations, 3)
    ensures Excluded(AfterRejection(observations, reason, unit))
            == Excluded(observations) + if Rotates(observations, reason, unit) then {unit.value} else {}
  {
    var rows := Retained(observations, reason, unit);
    var after := AfterRejection(observations, reason, unit);
    var feedback := FeedbackRow(observations, reason, unit);
    KeepKeeps(observations, IsFeedback);
    KeepKeeps(observations, IsRequired);
    FirstOfEachKeyKeeps(rows);
    FeedbackComesFirst(rows);
    assert rows[0] == feedback && feedback in after;
    forall o | o in observations && Excludes(o)
      ensures o.rejectedUnit.value in Excluded(after)
    {
      assert o in Keep(observations, IsFeedback);
      if Key(o) == Key(feedback) {
        assert Excludes(feedback);
      } else {
        forall p | p in rows && Key(p) == Key(o)
          ensures p == o
        {
          assert p in Keep(observations, IsFeedback);
        }
        LoneKeyIsKept(rows, o);
      }
    }
  }

  lemma {:induction false} FeedbackComesFirst(rows: seq<Observation>)
    requires rows != []
    ensures rows[0] in FirstOfEachKey(rows)
  {
    if |rows| > 1 {
      FeedbackComesFirst(rows[..|rows| - 1]);
    }
  }

  lemma {:induction false} KeepOfConcat(a: seq<Observation>, b: seq<Observation>, which: Observation -> bool)
    ensures Keep(a + b, which) == Keep(a, which) + Keep(b, which)
  {
    if b == [] {
      assert a + b == a;
    } else {
      assert (a + b)[..|a + b| - 1] == a + b[..|b| - 1];
      KeepOfConcat(a, b[..|b| - 1], which);
    }
  }

  lemma {:induction false} KeepOfKept(rows: seq<Observation>, which: Observation -> bool)
    requires forall o :: o in rows ==> which(o)
    ensures Keep(rows, which) == rows
  {
    if rows != [] {
      var front, last := rows[..|rows| - 1], rows[|rows| - 1];
      assert rows == front + [last];
      assert last in rows && forall o :: o in front ==> o in rows;
      KeepOfKept(front, which);
    }
  }

  lemma {:induction false} KeepNone(rows: seq<Observation>, which: Observation -> bool)
    requires forall o :: o in rows ==> !which(o)
    ensures Keep(rows, which) == []
  {
    if rows != [] {
      var front, last := rows[..|rows| - 1], rows[|rows| - 1];
      assert last in rows && forall o :: o in front ==> o in rows;
      KeepNone(front, which);
    }
  }

  lemma {:induction false} KeepShrinks(rows: seq<Observation>, which: Observation -> bool)
    ensures |Keep(FirstOfEachKey(rows), which)| <= |Keep(rows, which)|
  {
    if rows != [] {
      KeepShrinks(rows[..|rows| - 1], which);
      var front := FirstOfEachKey(rows[..|rows| - 1]);
      assert (front + [rows[|rows| - 1]])[..|front|] == front;
    }
  }

  lemma {:induction false} KeepStaysDistinct(rows: seq<Observation>, which: Observation -> bool)
    requires DistinctKeys(rows)
    ensures DistinctKeys(Keep(rows, which))
  {
    if rows != [] {
      var front, last := rows[..|rows| - 1], rows[|rows| - 1];
      KeepStaysDistinct(front, which);
      var kept := Keep(front, which);
      forall i | 0 <= i < |kept|
        ensures Key(kept[i]) != Key(last)
      {
        KeepKeeps(front, which);
        assert kept[i] in front;
        var k :| 0 <= k < |front| && front[k] == kept[i];
        assert rows[k] == front[k];
      }
    }
  }

  // A chain of n corrections leaves at most n pieces of feedback more than it found.
  lemma RejectionAddsOneFeedback(observations: seq<Observation>, reason: Reason, unit: Option<string>, n: nat)
    requires n <= 3 && BoundedFeedback(observations, n)
    ensures BoundedFeedback(AfterRejection(observations, reason, unit), n + 1)
  {
    var rows := Retained(observations, reason, unit);
    var prior, required := Keep(observations, IsFeedback), Keep(observations, IsRequired);
    KeepKeeps(observations, IsFeedback);
    KeepKeeps(observations, IsRequired);
    var feedback := [FeedbackRow(observations, reason, unit)] + prior;
    KeepOfConcat(feedback, required, IsFeedback);
    KeepOfKept(feedback, IsFeedback);
    KeepNone(required, IsFeedback);
    assert rows == feedback + required;
    KeepShrinks(rows, IsFeedback);
    FirstOfEachKeyIsDistinct(rows);
    KeepStaysDistinct(FirstOfEachKey(rows), IsFeedback);
    FirstOfEachKeyKeeps(rows);
  }
}
