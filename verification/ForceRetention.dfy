/**
 What the rewritings of a request's observations retain, told by places in the old list.
 */
module ForceRetention {
  import opened Basics
  import opened Greedy
  import opened ForceMemory
  import opened ForceObservations

  // Only these rows, whatever else is there.
  ghost function Only(which: Observation -> bool): Rule<Observation> {
    Rule((o: Observation) => !which(o), (a: Observation, b: Observation) => false)
  }

  // The first row of each key.
  ghost function ByKey(): Rule<Observation> {
    Rule((o: Observation) => false, (a: Observation, b: Observation) => Key(a) == Key(b))
  }

  // The rows that are picked, up to a limit, in order.
  ghost predicate Retains(rows: seq<Observation>, which: Observation -> bool, limit: nat, kept: seq<Observation>) {
    exists taken :: FirstFree(rows, Only(which), limit, taken) && kept == ItemsAt(rows, taken)
  }

  lemma OnlyKeepsOut(rows: seq<Observation>, which: Observation -> bool, taken: seq<nat>, j: nat)
    requires j < |rows| && Increasing(taken, |rows|)
    ensures KeptOut(rows, Only(which), taken, j) <==> !which(rows[j])
  {
  }

  lemma {:induction false} KeepPlaces(rows: seq<Observation>, which: Observation -> bool) returns (taken: seq<nat>)
    ensures FirstFree(rows, Only(which), |rows| + 1, taken) && |taken| <= |rows|
    ensures Keep(rows, which) == ItemsAt(rows, taken)
  {
    taken := [];
    if rows != [] {
      var n, rule := |rows| - 1, Only(which);
      taken := KeepPlaces(rows[..n], which);
      RoomForMore(rows[..n], rule, n + 1, taken);
      ItemsAtOneMore(rows, taken, n);
      OnlyKeepsOut(rows, which, taken, n);
      if which(rows[n]) {
        OneMoreTaken(rows, rule, n + 2, taken, n);
        taken := taken + [n];
      } else {
        OneMoreLeft(rows, rule, n + 2, taken, n);
      }
    }
  }

  lemma KeepRetains(rows: seq<Observation>, which: Observation -> bool, limit: nat)
    ensures Retains(rows, which, limit, FirstN(Keep(rows, which), limit))
  {
    var all := KeepPlaces(rows, which);
    LessRoom(rows, Only(which), |rows| + 1, all, limit);
    if limit < |all| {
      FirstItems(rows, all, limit);
      assert FirstN(Keep(rows, which), limit) == ItemsAt(rows, all[..limit]);
    }
  }

  lemma KeyKeepsOut(rows: seq<Observation>, taken: seq<nat>, n: nat)
    requires n < |rows| && Increasing(taken, n) && Increasing(taken, |rows|)
    ensures KeptOut(rows, ByKey(), taken, n) <==> Key(rows[n]) in Keys(ItemsAt(rows, taken))
  {
    var those, rule := ItemsAt(rows, taken), ByKey();
    if Key(rows[n]) in Keys(those) {
      var k :| 0 <= k < |those| && Key(those[k]) == Key(rows[n]);
      assert rule.clash(rows[n], rows[taken[k]]);
    }
    if Clashes(rows, rule, taken, n) {
      var k :| 0 <= k < |taken| && taken[k] < n && rule.clash(rows[n], rows[taken[k]]);
      assert those[k] in those && Key(those[k]) == Key(rows[n]);
    }
  }

  lemma {:induction false} FirstOfEachKeyPlaces(rows: seq<Observation>) returns (taken: seq<nat>)
    ensures FirstFree(rows, ByKey(), |rows| + 1, taken) && |taken| <= |rows|
    ensures FirstOfEachKey(rows) == ItemsAt(rows, taken)
  {
    taken := [];
    if rows != [] {
      var n, rule := |rows| - 1, ByKey();
      taken := FirstOfEachKeyPlaces(rows[..n]);
      RoomForMore(rows[..n], rule, n + 1, taken);
      ItemsAtOneMore(rows, taken, n);
      KeyKeepsOut(rows, taken, n);
      if Key(rows[n]) in Keys(FirstOfEachKey(rows[..n])) {
        OneMoreLeft(rows, rule, n + 2, taken, n);
      } else {
        OneMoreTaken(rows, rule, n + 2, taken, n);
        taken := taken + [n];
      }
    }
  }

  // The feedback on a rejection: it names the unit of an edit that changes nothing or deletes
  // something needed, and has the model leave it, a removed binding only the second time.
  ghost predicate FeedsBack(o: Observation, observations: seq<Observation>, reason: Reason, unit: Option<string>) {
    && o.stage == ValidationFeedback && o.source == NoSource && o.reason == reason && o.value == Opaque("")
    && o.rejectedUnit == (if reason in {CausallyEmptyDeletion, NoOpEdit, RemovedLiveBinding} then unit else None)
    && (o.rotate <==> o.rejectedUnit.Some? && (reason == RemovedLiveBinding ==>
          exists p :: p in observations && p.stage == ValidationFeedback && p.reason == RemovedLiveBinding
                      && p.rejectedUnit == unit))
  }

  lemma FeedbackIs(observations: seq<Observation>, reason: Reason, unit: Option<string>)
    ensures FeedsBack(FeedbackRow(observations, reason, unit), observations, reason, unit)
  {
    var o := FeedbackRow(observations, reason, unit);
    if unit.Some? {
      assert RepeatedLiveBinding(observations, unit.value)
             <==> exists p :: p in observations && p.stage == ValidationFeedback && p.reason == RemovedLiveBinding
                              && p.rejectedUnit == unit;
    }
  }

  ghost function OlderFeedback(): Observation -> bool {
    (o: Observation) => o.stage == ValidationFeedback
  }

  ghost function NotToBeLost(): Observation -> bool {
    (o: Observation) => o.source in {CensusCurrent, TargetedRegression, SandboxMemory, PortfolioReservation}
  }

  ghost function ToBeCarried(): Observation -> bool {
    (o: Observation) =>
      && o.stage != ValidationFeedback
      && o.source in {CensusCurrent, CensusSharded, TargetedRegression, SandboxMemory, PortfolioReservation}
  }

  // A rejection leaves its own feedback, the first three older ones and every row of the four sources
  // a correction may not lose, in this order, each key once.
  lemma RejectionRetains(observations: seq<Observation>, reason: Reason, unit: Option<string>)
    returns (feedback: Observation, prior: seq<Observation>, required: seq<Observation>, taken: seq<nat>)
    ensures FeedsBack(feedback, observations, reason, unit)
    ensures Retains(observations, OlderFeedback(), 3, prior)
    ensures Retains(observations, NotToBeLost(), |observations| + 1, required)
    ensures var all := [feedback] + prior + required;
            && FirstFree(all, ByKey(), |all| + 1, taken)
            && AfterRejection(observations, reason, unit) == ItemsAt(all, taken)
  {
    feedback := FeedbackRow(observations, reason, unit);
    FeedbackIs(observations, reason, unit);
    prior, required := FirstN(Keep(observations, IsFeedback), 3), Keep(observations, IsRequired);
    OlderFeedbackIsKept(observations);
    RequiredIsKept(observations);
    taken := FirstOfEachKeyPlaces([feedback] + prior + required);
  }

  lemma OlderFeedbackIsKept(observations: seq<Observation>)
    ensures Retains(observations, OlderFeedback(), 3, FirstN(Keep(observations, IsFeedback), 3))
  {
    KeepRetains(observations, IsFeedback, 3);
    SameRule(observations, IsFeedback, OlderFeedback(), 3, FirstN(Keep(observations, IsFeedback), 3));
  }

  lemma RequiredIsKept(observations: seq<Observation>)
    ensures Retains(observations, NotToBeLost(), |observations| + 1, Keep(observations, IsRequired))
  {
    KeepKeeps(observations, IsRequired);
    KeepRetains(observations, IsRequired, |observations| + 1);
    SameRule(observations, IsRequired, NotToBeLost(), |observations| + 1, Keep(observations, IsRequired));
  }

  lemma SameRule(rows: seq<Observation>, a: Observation -> bool, b: Observation -> bool, limit: nat,
                 kept: seq<Observation>)
    requires Retains(rows, a, limit, kept) && forall o :: a(o) <==> b(o)
    ensures Retains(rows, b, limit, kept)
  {
    var taken :| FirstFree(rows, Only(a), limit, taken) && kept == ItemsAt(rows, taken);
    forall j: nat | j < |rows|
      ensures KeptOut(rows, Only(a), taken, j) <==> KeptOut(rows, Only(b), taken, j)
    {
      OnlyKeepsOut(rows, a, taken, j);
      OnlyKeepsOut(rows, b, taken, j);
    }
    assert FirstFree(rows, Only(b), limit, taken);
  }

  // A candidate that failed passes on its reason and the first twelve rows of evidence.
  lemma CarryingRetains(observations: seq<Observation>, reason: Reason) returns (kept: seq<Observation>)
    ensures Carried(observations, reason)
            == [Observation(ValidationFeedback, PortfolioRejection, reason, None, false, Opaque(""))] + kept
    ensures Retains(observations, ToBeCarried(), 12, kept)
  {
    kept := FirstN(Evidence(observations), 12);
    KeepRetains(observations, IsCarried, 12);
    SameRule(observations, IsCarried, ToBeCarried(), 12, kept);
  }

  // Reserving adds the candidate to the first reservation row there is, which keeps its last four, or
  // adds such a row at the end; every other row stays where it is.
  lemma ReservingRetains(observations: seq<Observation>, mutations: seq<Mutation>, i: nat)
    requires i <= |observations|
    requires forall j :: 0 <= j < i ==>
               observations[j].source != PortfolioReservation || !observations[j].value.Rows?
    requires i < |observations| ==> observations[i].source == PortfolioReservation && observations[i].value.Rows?
    ensures var before := if i < |observations| then observations[i].value.rows else [];
            var rows := before + [ReservationRow(mutations)];
            var last := Rows(if |rows| <= 4 then rows else rows[|rows| - 4..]);
            && |Reserved(observations, mutations)| == (if i < |observations| then |observations| else i + 1)
            && (forall j :: 0 <= j < |observations| && j != i ==>
                  Reserved(observations, mutations)[j] == observations[j])
            && Reserved(observations, mutations)[i]
               == (if i < |observations| then observations[i].(value := last)
                   else Observation(NoStage, PortfolioReservation, NoReason, None, false, last))
  {
    FirstReservation(observations, 0, i);
  }

  lemma {:induction false} FirstReservation(observations: seq<Observation>, from: nat, i: nat)
    requires from <= i <= |observations|
    requires forall j :: from <= j < i ==>
               observations[j].source != PortfolioReservation || !observations[j].value.Rows?
    requires i < |observations| ==> observations[i].source == PortfolioReservation && observations[i].value.Rows?
    ensures ReservationIndex(observations, from) == if i < |observations| then i else -1
    decreases i - from
  {
    if from < i { FirstReservation(observations, from + 1, i); }
  }
}
