/**
 What a provider's loop hands on, told from its calls alone: every edit the model was admitted to
 make, in order, and no candidate or scope left out while there was time.
 */
module ForceDelivery {
  import opened Basics
  import opened ForceMemory
  import opened ForceObservations
  import opened ForceScope
  import opened ForcePortfolio

  // What a reply offers to change.
  function Offer(reply: Reply): seq<Mutation> {
    if reply.Edit? then reply.mutations else []
  }

  // The offers of the calls that are picked, in the order of the calls.
  ghost function Offers(oracle: Oracle, picked: (Call, nat) -> bool, log: seq<Call>): seq<seq<Mutation>> {
    if log == [] then []
    else
      var n := |log| - 1;
      Offers(oracle, picked, log[..n]) + if picked(log[n], n) then [Offer(oracle.reply(n))] else []
  }

  // Calls answered with an edit that is admitted and changes something.
  ghost function ExecutesIn(p: Plan): (Call, nat) -> bool {
    (c: Call, n: nat) => Admits(p.oracle, p.digests, c, n) && Offer(p.oracle.reply(n)) != []
  }

  // Calls answered with an admitted abstention.
  ghost function AbstainsIn(p: Plan): (Call, nat) -> bool {
    (c: Call, n: nat) => Admits(p.oracle, p.digests, c, n) && Offer(p.oracle.reply(n)) == []
  }

  // The edits admitted.
  ghost function AdmittedLists(p: Plan, log: seq<Call>): seq<seq<Mutation>> {
    Offers(p.oracle, ExecutesIn(p), log)
  }

  ghost predicate PicksSome(picked: (Call, nat) -> bool, log: seq<Call>, from: nat) {
    exists i :: from <= i < |log| && picked(log[i], i)
  }

  lemma {:induction false} NoneOffered(oracle: Oracle, picked: (Call, nat) -> bool, before: seq<Call>, after: seq<Call>)
    requires before <= after && PicksNone(picked, after, |before|, |after|)
    ensures Offers(oracle, picked, after) == Offers(oracle, picked, before)
  {
    if |before| < |after| {
      NoneOffered(oracle, picked, before, after[..|after| - 1]);
    } else {
      assert before == after;
    }
  }

  lemma LastOffered(oracle: Oracle, picked: (Call, nat) -> bool, before: seq<Call>, after: seq<Call>)
    requires before <= after && |before| < |after| && PicksNone(picked, after, |before|, |after| - 1)
    requires picked(after[|after| - 1], |after| - 1)
    ensures Offers(oracle, picked, after) == Offers(oracle, picked, before) + [Offer(oracle.reply(|after| - 1))]
  {
    NoneOffered(oracle, picked, before, after[..|after| - 1]);
  }

  lemma SomeOfMore(picked: (Call, nat) -> bool, from: nat, before: seq<Call>, after: seq<Call>, last: int)
    requires before <= after && from <= |before| && last == |after| - 1 && PicksNone(picked, after, |before|, last)
    ensures PicksSome(picked, after, from)
            <==> PicksSome(picked, before, from) || (|before| <= last && picked(after[last], last))
  {
    if PicksSome(picked, after, from) {
      var i :| from <= i < |after| && picked(after[i], i);
      assert i < |before| ==> before[i] == after[i];
    }
    if PicksSome(picked, before, from) {
      var i :| from <= i < |before| && picked(before[i], i);
      assert before[i] == after[i];
    }
  }

  /******* One candidate *******/

  // Only the last call of a candidate may execute; then its edit is the one selected.
  ghost predicate Picks(p: Plan, before: Run, after: Run, tried: Tried) {
    var last := |after.log| - 1;
    && before.log <= after.log && after.calls == |after.log|
    && PicksNone(ExecutesIn(p), after.log, |before.log|, last)
    && (if |before.log| <= last && ExecutesIn(p)(after.log[last], last)
        then tried.selected == Offer(p.oracle.reply(last))
        else tried.selected == [])
    && (tried.abstained <==> PicksSome(AbstainsIn(p), after.log, |before.log|))
  }

  // The calls carry the candidate and its deadline, and the clock does not go back.
  ghost predicate Belongs(p: Plan, deadline: real, before: Run, after: Run) {
    && before.log <= after.log && after.candidate == before.candidate
    && (forall c :: c in NewCalls(before, after) ==> c.candidate == before.candidate && c.deadline == deadline)
    && (TimePasses(p.oracle) ==> before.clock <= after.clock)
  }

  lemma PicksLater(p: Plan, before: Run, between: Run, after: Run, tried: Tried, attempt: Attempt)
    requires Picks(p, before, between, tried) && tried.selected == []
    requires Concludes(p.oracle, p.digests, between, after, attempt)
    ensures Picks(p, before, after, Noted(tried, attempt))
  {
    var last := |after.log| - 1;
    forall i | |between.log| <= i < last
      ensures !Admits(p.oracle, p.digests, after.log[i], i)
    {
    }
    SomeOfMore(AbstainsIn(p), |before.log|, between.log, after.log, last);
    NoneOfMore(ExecutesIn(p), |before.log|, between.log, after.log, last);
    if last < |between.log| {
      assert between.log == after.log;
    } else {
      assert ExecutesIn(p)(after.log[last], last)
             <==> AdmittedBy(p.oracle, p.digests)(after.log[last], last) && Offer(p.oracle.reply(last)) != [];
    }
  }

  lemma BelongsLater(p: Plan, deadline: real, before: Run, between: Run, scope: Scope, after: Run)
    requires Belongs(p, deadline, before, between)
    requires StaysWith(p.oracle, deadline, between.(scope := scope), after)
    ensures Belongs(p, deadline, before, after)
  {
    assert NewCalls(before, after) == NewCalls(before, between) + NewCalls(between, after);
  }

  ghost predicate Visits(start: Run, run: Run, scope: Scope)
    requires start.log <= run.log
  {
    exists c :: c in NewCalls(start, run) && c.scope == scope
  }

  // Each of the first n scopes was called for.
  ghost predicate Covers(p: Plan, start: Run, run: Run, n: nat)
    requires n <= |p.scopes| && start.log <= run.log
  {
    forall i :: 0 <= i < n ==> Visits(start, run, p.scopes[i])
  }

  lemma CoversOneMore(p: Plan, deadline: real, start: Run, run: Run, i: nat, after: Run)
    requires i < |p.scopes| && start.log <= run.log && Covers(p, start, run, i)
    requires StaysWith(p.oracle, deadline, run.(scope := p.scopes[i]), after) && |run.log| < |after.log|
    ensures Covers(p, start, after, i + 1)
  {
    assert NewCalls(start, after) == NewCalls(start, run) + NewCalls(run, after);
    var c := NewCalls(run, after)[0];
    assert c in NewCalls(run.(scope := p.scopes[i]), after);
    forall j | 0 <= j < i + 1
      ensures Visits(start, after, p.scopes[j])
    {
      if j < i {
        assert Visits(start, run, p.scopes[j]);
        var d :| d in NewCalls(start, run) && d.scope == p.scopes[j];
        assert d in NewCalls(start, after);
      } else {
        assert c in NewCalls(start, after);
      }
    }
  }

  // A candidate in front of its scope i, with nothing selected.
  ghost predicate Trying(p: Plan, observations: seq<Observation>, deadline: real, start: Run, i: nat, tried: Tried,
                         run: Run)
  {
    && i <= |p.scopes| && Picks(p, start, run, tried) && Belongs(p, deadline, start, run)
    && (TimePasses(p.oracle) ==> Covers(p, start, run, i) || deadline - run.clock < 5.0)
    && (|start.log| < |run.log| ==> Asks(observations, |start.log|, run))
    && (i > 0 && deadline - start.clock >= 5.0 ==> |start.log| < |run.log|)
    && (i == 0 ==> start == run)
  }

  lemma ScopeDelivers(p: Plan, observations: seq<Observation>, deadline: real, start: Run, i: nat, tried: Tried,
                      run: Run)
    requires Trying(p, observations, deadline, start, i, tried, run) && i < |p.scopes| && tried.selected == []
    ensures var (attempt, after) := ScopeRun(observations, p.digests, p.oracle, p.settings, p.scopes[i], deadline, run);
            Trying(p, observations, deadline, start, i + 1, Noted(tried, attempt), after)
  {
    ScopeConcludes(observations, p.digests, p.oracle, p.settings, p.scopes[i], deadline, run);
    var (attempt, after) := ScopeRun(observations, p.digests, p.oracle, p.settings, p.scopes[i], deadline, run);
    PicksLater(p, start, run, after, tried, attempt);
    BelongsLater(p, deadline, start, run, p.scopes[i], after);
    if Covers(p, start, run, i) && |run.log| < |after.log| { CoversOneMore(p, deadline, start, run, i, after); }
  }

  // What a candidate's calls tell when it is over.
  ghost predicate Concluded(p: Plan, observations: seq<Observation>, deadline: real, start: Run, tried: Tried,
                            run: Run)
  {
    && Picks(p, start, run, tried) && Belongs(p, deadline, start, run)
    && (TimePasses(p.oracle) ==>
          tried.selected != [] || Covers(p, start, run, |p.scopes|) || deadline - run.clock < 5.0)
    && (|start.log| < |run.log| ==> Asks(observations, |start.log|, run))
    && (p.scopes != [] && deadline - start.clock >= 5.0 ==> |start.log| < |run.log|)
  }

  ghost function TryingOf(p: Plan, observations: seq<Observation>, deadline: real, start: Run):
    (nat, Tried, Run) -> bool
  {
    (n: nat, tried: Tried, run: Run) => Trying(p, observations, deadline, start, n, tried, run)
  }

  lemma AskingDelivers(p: Plan, observations: seq<Observation>, deadline: real, start: Run, j: nat, tried: Tried,
                       run: Run)
    requires j < |p.scopes| && tried.selected == [] && TryingOf(p, observations, deadline, start)(j, tried, run)
    ensures var (attempt, after) := Asking(p, observations, deadline)(p.scopes[j], run);
            TryingOf(p, observations, deadline, start)(j + 1, Noted(tried, attempt), after)
  {
    ScopeDelivers(p, observations, deadline, start, j, tried, run);
  }

  lemma EachDeliversItsScope(p: Plan, observations: seq<Observation>, deadline: real, start: Run)
    ensures EachTry(p.scopes, Asking(p, observations, deadline), deadline, TryingOf(p, observations, deadline, start))
  {
    var keeps, ask := TryingOf(p, observations, deadline, start), Asking(p, observations, deadline);
    forall j: nat, t: Tried, r: Run {:trigger keeps(j, t, r)} | j < |p.scopes| && keeps(j, t, r) && t.selected == []
      ensures keeps(j + 1, Noted(t, ask(p.scopes[j], r).0), ask(p.scopes[j], r).1)
    {
      AskingDelivers(p, observations, deadline, start, j, t, r);
    }
  }

  lemma TriedIsConcluded(p: Plan, observations: seq<Observation>, deadline: real, start: Run, n: nat, last: Tried,
                         tried: Tried, run: Run)
    requires Trying(p, observations, deadline, start, n, last, run)
    requires if n < |p.scopes| && last.selected == []
             then run.clock >= deadline && tried == last.(reason := tried.reason) else tried == last
    ensures Concluded(p, observations, deadline, start, tried, run)
  {
  }

  lemma TryingDelivers(p: Plan, observations: seq<Observation>, deadline: real, start: Run)
    requires start.calls == |start.log|
    ensures var (tried, run) := TryAll(p, observations, deadline, start);
            Concluded(p, observations, deadline, start, tried, run)
  {
    EachDeliversItsScope(p, observations, deadline, start);
    assert Trying(p, observations, deadline, start, 0, NothingTried, start);
    var n, last := TryKeeps(p.scopes, Asking(p, observations, deadline), deadline,
                            TryingOf(p, observations, deadline, start), 0, NothingTried, start);
    var (tried, run) := TryAll(p, observations, deadline, start);
    TriedIsConcluded(p, observations, deadline, start, n, last, tried, run);
  }

  ghost function ClockedOf(p: Plan): (nat, Tried, Run) -> bool {
    (n: nat, tried: Tried, run: Run) => Clocked(p.oracle, p.begin, run)
  }

  lemma EachIsClocked(p: Plan, observations: seq<Observation>, deadline: real)
    ensures EachTry(p.scopes, Asking(p, observations, deadline), deadline, ClockedOf(p))
  {
    var keeps, ask := ClockedOf(p), Asking(p, observations, deadline);
    forall j: nat, t: Tried, r: Run {:trigger keeps(j, t, r)} | j < |p.scopes| && keeps(j, t, r)
      ensures keeps(j + 1, Noted(t, ask(p.scopes[j], r).0), ask(p.scopes[j], r).1)
    {
      ScopeIsClocked(p.begin, observations, p.digests, p.oracle, p.settings, p.scopes[j], deadline, r);
    }
  }

  lemma TryingIsClocked(p: Plan, observations: seq<Observation>, deadline: real, run: Run)
    requires Clocked(p.oracle, p.begin, run)
    ensures Clocked(p.oracle, p.begin, TryAll(p, observations, deadline, run).1)
  {
    EachIsClocked(p, observations, deadline);
    var n, last := TryKeeps(p.scopes, Asking(p, observations, deadline), deadline, ClockedOf(p), 0, NothingTried, run);
  }

  /******* Why a candidate came to nothing *******/

  // The verdict on call i.
  ghost function VerdictOn(p: Plan, c: Call, i: nat): Attempt {
    Judged(p.oracle.reply(i), c.observations, p.digests)
  }

  // A refusal of the last call is the reason, unless time was up.
  ghost predicate TellsWhy(p: Plan, deadline: real, start: Run, tried: Tried, run: Run) {
    var last := |run.log| - 1;
    && run.calls == |run.log| && start.log <= run.log
    && (|start.log| <= last && deadline - run.clock >= 5.0 && VerdictOn(p, run.log[last], last).Refused? ==>
          tried.reason == VerdictOn(p, run.log[last], last).reason)
  }

  lemma ScopeTellsWhy(p: Plan, observations: seq<Observation>, deadline: real, scope: Scope, run: Run, tried: Tried)
    requires run.calls == |run.log|
    ensures var (attempt, after) := ScopeRun(observations, p.digests, p.oracle, p.settings, scope, deadline, run);
            TellsWhy(p, deadline, run, Noted(tried, attempt), after)
            && (deadline - after.clock >= 5.0 ==> |run.log| < |after.log|)
  {
    ScopeConcludes(observations, p.digests, p.oracle, p.settings, scope, deadline, run);
    var n := ScopeFollows(observations, p.digests, p.oracle, p.settings, scope, deadline, run);
    if deadline - run.clock < 5.0 { NoCallNoTime(observations, p, scope, deadline, run); }
  }

  ghost function WhyOf(p: Plan, deadline: real, start: Run): (nat, Tried, Run) -> bool {
    (n: nat, tried: Tried, run: Run) => TellsWhy(p, deadline, start, tried, run)
  }

  lemma AskingTellsWhy(p: Plan, observations: seq<Observation>, deadline: real, start: Run, j: nat, tried: Tried,
                       run: Run)
    requires j < |p.scopes| && WhyOf(p, deadline, start)(j, tried, run)
    ensures var (attempt, after) := Asking(p, observations, deadline)(p.scopes[j], run);
            WhyOf(p, deadline, start)(j + 1, Noted(tried, attempt), after)
  {
    ScopeTellsWhy(p, observations, deadline, p.scopes[j], run, tried);
    var (attempt, after) := Asking(p, observations, deadline)(p.scopes[j], run);
    WhyLater(p, deadline, start, run, Noted(tried, attempt), after);
  }

  lemma WhyLater(p: Plan, deadline: real, start: Run, between: Run, tried: Tried, run: Run)
    requires start.log <= between.log && TellsWhy(p, deadline, between, tried, run)
    requires deadline - run.clock >= 5.0 ==> |between.log| < |run.log|
    ensures TellsWhy(p, deadline, start, tried, run)
  {
    assert run.log[..|between.log|] == between.log;
  }

  lemma TryingTellsWhy(p: Plan, observations: seq<Observation>, deadline: real, start: Run)
    requires start.calls == |start.log|
    ensures var (tried, run) := TryAll(p, observations, deadline, start); TellsWhy(p, deadline, start, tried, run)
  {
    var keeps, ask := WhyOf(p, deadline, start), Asking(p, observations, deadline);
    forall j: nat, t: Tried, r: Run {:trigger keeps(j, t, r)} | j < |p.scopes| && keeps(j, t, r)
      ensures keeps(j + 1, Noted(t, ask(p.scopes[j], r).0), ask(p.scopes[j], r).1)
    {
      AskingTellsWhy(p, observations, deadline, start, j, t, r);
    }
    assert TellsWhy(p, deadline, start, NothingTried, start);
    var n, last := TryKeeps(p.scopes, ask, deadline, keeps, 0, NothingTried, start);
    var (tried, run) := TryAll(p, observations, deadline, start);
    assert TellsWhy(p, deadline, start, last, run);
  }

  // A scope that makes no call leaves the clock where it was.
  lemma NoCallNoTime(observations: seq<Observation>, p: Plan, scope: Scope, deadline: real, run: Run)
    requires run.calls == |run.log| && deadline - run.clock < 5.0
    ensures ScopeRun(observations, p.digests, p.oracle, p.settings, scope, deadline, run).1.clock == run.clock
  {
  }

  /******* The whole loop *******/

  // Candidates come in order, numbered from one, and an edit that is admitted is the last call of its
  // candidate.
  ghost predicate Numbered(p: Plan, log: seq<Call>, k: nat) {
    && (forall i :: 0 <= i < |log| ==> 1 <= log[i].candidate <= k)
    && (forall i, j :: 0 <= i < j < |log| ==>
          log[i].candidate <= log[j].candidate && (ExecutesIn(p)(log[i], i) ==> log[i].candidate < log[j].candidate))
  }

  ghost predicate Called(log: seq<Call>, k: nat, scope: Scope) {
    exists c :: c in log && c.candidate == k && c.scope == scope
  }

  ghost predicate LastOfCandidate(log: seq<Call>, i: nat) {
    i < |log| && (i + 1 == |log| || log[i + 1].candidate != log[i].candidate)
  }

  // The last call of a candidate was admitted, or every scope was called for, or time was up.
  ghost predicate NothingLeft(p: Plan, log: seq<Call>, i: nat)
    requires i < |log|
  {
    || ExecutesIn(p)(log[i], i)
    || (forall scope :: scope in p.scopes ==> Called(log, log[i].candidate, scope))
    || log[i].deadline - (log[i].at + p.oracle.seconds(i)) < 5.0
  }

  ghost predicate Thorough(p: Plan, log: seq<Call>) {
    forall i: nat :: LastOfCandidate(log, i) ==> NothingLeft(p, log, i)
  }

  ghost predicate Asked(log: seq<Call>, k: nat) {
    exists c :: c in log && c.candidate == k
  }

  ghost predicate EachAsked(log: seq<Call>, k: nat) {
    forall j :: 1 <= j <= k ==> Asked(log, j)
  }

  ghost predicate InTime(p: Plan, run: Run) {
    p.forceDeadline - run.clock >= 5.0
  }

  // The planned candidates are the edits admitted, behind an abstention if that came first.
  ghost predicate Planned(p: Plan, log: seq<Call>, planned: seq<seq<Mutation>>) {
    && Executable(planned) == AdmittedLists(p, log)
    && (planned == Executable(planned) || planned == [[]] + Executable(planned))
    && (planned == [] <==> PicksNone(AdmittedBy(p.oracle, p.digests), log, 0, |log|))
  }

  // No candidate and no scope is left out while there is time.
  ghost predicate LeavesNothing(p: Plan, k: nat, run: Run) {
    TimePasses(p.oracle) ==>
      Thorough(p, run.log) && (p.scopes != [] && InTime(p, run) ==> EachAsked(run.log, k))
  }

  ghost predicate Delivers(p: Plan, k: nat, planned: seq<seq<Mutation>>, run: Run) {
    && Clocked(p.oracle, p.begin, run) && Planned(p, run.log, planned) && Numbered(p, run.log, k)
    && LeavesNothing(p, k, run)
  }

  lemma ExecutableOfMore(planned: seq<seq<Mutation>>, more: seq<Mutation>)
    ensures Executable(planned + [more]) == Executable(planned) + if more != [] then [more] else []
  {
    assert (planned + [more])[..|planned|] == planned;
  }

  lemma AdmittedIsEither(p: Plan, log: seq<Call>, from: nat)
    ensures PicksNone(AdmittedBy(p.oracle, p.digests), log, from, |log|)
            <==> !PicksSome(ExecutesIn(p), log, from) && !PicksSome(AbstainsIn(p), log, from)
  {
  }

  lemma NoneExecuted(p: Plan, before: seq<Call>, after: seq<Call>)
    requires before <= after && PicksNone(ExecutesIn(p), after, |before|, |after|)
    ensures AdmittedLists(p, after) == AdmittedLists(p, before)
    ensures PicksNone(AdmittedBy(p.oracle, p.digests), after, 0, |after|)
            <==> PicksNone(AdmittedBy(p.oracle, p.digests), before, 0, |before|)
                 && !PicksSome(AbstainsIn(p), after, |before|)
  {
    NoneOffered(p.oracle, ExecutesIn(p), before, after);
    AdmittedIsEither(p, after, |before|);
    var admitted := AdmittedBy(p.oracle, p.digests);
    if PicksNone(admitted, before, 0, |before|) && PicksNone(admitted, after, |before|, |after|) {
      NoneOfMore(admitted, 0, before, after, |after| - 1);
    }
    if PicksNone(AdmittedBy(p.oracle, p.digests), after, 0, |after|) {
      forall i | 0 <= i < |before|
        ensures !AdmittedBy(p.oracle, p.digests)(before[i], i)
      {
        assert before[i] == after[i];
      }
    }
  }

  lemma ExecutedIsAdmitted(p: Plan, log: seq<Call>, last: nat)
    requires last < |log| && ExecutesIn(p)(log[last], last)
    ensures !PicksNone(AdmittedBy(p.oracle, p.digests), log, 0, |log|)
  {
    assert AdmittedBy(p.oracle, p.digests)(log[last], last);
  }

  lemma SelectionIsPlanned(p: Plan, before: seq<Call>, after: seq<Call>, planned: seq<seq<Mutation>>,
                           selected: seq<Mutation>)
    requires Planned(p, before, planned) && before <= after && |before| < |after| && selected != []
    requires PicksNone(ExecutesIn(p), after, |before|, |after| - 1)
    requires ExecutesIn(p)(after[|after| - 1], |after| - 1) && selected == Offer(p.oracle.reply(|after| - 1))
    ensures Planned(p, after, planned + [selected])
  {
    LastOffered(p.oracle, ExecutesIn(p), before, after);
    ExecutableOfMore(planned, selected);
    ExecutedIsAdmitted(p, after, |after| - 1);
  }

  lemma NothingIsPlanned(p: Plan, before: seq<Call>, after: seq<Call>, planned: seq<seq<Mutation>>, abstained: bool)
    requires Planned(p, before, planned) && before <= after && PicksNone(ExecutesIn(p), after, |before|, |after|)
    requires abstained <==> PicksSome(AbstainsIn(p), after, |before|)
    ensures Planned(p, after, if abstained && planned == [] then [[]] else planned)
  {
    NoneExecuted(p, before, after);
    assert Executable([[]]) == [] by { ExecutableOfMore([], []); }
  }

  lemma PlannedLater(p: Plan, start: Run, run: Run, tried: Tried, planned: seq<seq<Mutation>>)
    requires Picks(p, start, run, tried) && Planned(p, start.log, planned)
    ensures Planned(p, run.log, WithCandidate(planned, tried))
  {
    if tried.selected != [] {
      SelectionIsPlanned(p, start.log, run.log, planned, tried.selected);
    } else {
      NothingIsPlanned(p, start.log, run.log, planned, tried.abstained);
    }
  }

  lemma NumberedLater(p: Plan, k: nat, deadline: real, start: Run, run: Run, tried: Tried)
    requires k >= 1 && Numbered(p, start.log, k - 1) && start.candidate == k
    requires Belongs(p, deadline, start, run) && PicksNone(ExecutesIn(p), run.log, |start.log|, |run.log| - 1)
    ensures Numbered(p, run.log, k)
  {
    var log, n := run.log, |start.log|;
    NewAreOf(p, deadline, start, run);
    assert forall i :: 0 <= i < n ==> log[i] == start.log[i];
    forall i, j | 0 <= i < j < |log|
      ensures log[i].candidate <= log[j].candidate && (ExecutesIn(p)(log[i], i) ==> log[i].candidate < log[j].candidate)
    {
      if i < n {
        assert log[i] == start.log[i];
        assert j < n ==> log[j] == start.log[j];
      }
    }
  }

  lemma CalledLater(before: seq<Call>, after: seq<Call>, k: nat, scope: Scope)
    requires before <= after && Called(before, k, scope)
    ensures Called(after, k, scope)
  {
    var c :| c in before && c.candidate == k && c.scope == scope;
    assert c in after;
  }

  lemma LeftAsBefore(p: Plan, before: seq<Call>, after: seq<Call>, i: nat)
    requires before <= after && i < |before| && NothingLeft(p, before, i)
    ensures NothingLeft(p, after, i)
  {
    assert before[i] == after[i];
    forall scope | scope in p.scopes && Called(before, before[i].candidate, scope)
      ensures Called(after, after[i].candidate, scope)
    {
      CalledLater(before, after, before[i].candidate, scope);
    }
  }

  lemma CoveredIsCalled(p: Plan, deadline: real, start: Run, run: Run)
    requires Belongs(p, deadline, start, run) && Covers(p, start, run, |p.scopes|)
    ensures forall scope :: scope in p.scopes ==> Called(run.log, start.candidate, scope)
  {
    forall scope | scope in p.scopes
      ensures Called(run.log, start.candidate, scope)
    {
      var i :| 0 <= i < |p.scopes| && p.scopes[i] == scope;
      assert Visits(start, run, p.scopes[i]);
      var c :| c in NewCalls(start, run) && c.scope == scope;
      assert c in run.log;
    }
  }

  lemma LastHasNothingLeft(p: Plan, observations: seq<Observation>, deadline: real, start: Run, tried: Tried, run: Run)
    requires Concluded(p, observations, deadline, start, tried, run) && |start.log| < |run.log|
    requires TimePasses(p.oracle) && Clocked(p.oracle, p.begin, run)
    ensures NothingLeft(p, run.log, |run.log| - 1)
  {
    var last := |run.log| - 1;
    assert run.log[last] == NewCalls(start, run)[last - |start.log|];
    if tried.selected == [] && Covers(p, start, run, |p.scopes|) { CoveredIsCalled(p, deadline, start, run); }
  }

  lemma NewAreOf(p: Plan, deadline: real, start: Run, run: Run)
    requires Belongs(p, deadline, start, run)
    ensures forall i :: |start.log| <= i < |run.log| ==> run.log[i].candidate == start.candidate
  {
    forall i | |start.log| <= i < |run.log|
      ensures run.log[i].candidate == start.candidate
    {
      assert run.log[i] == NewCalls(start, run)[i - |start.log|];
    }
  }

  lemma ThoroughLater(p: Plan, k: nat, observations: seq<Observation>, deadline: real, start: Run, tried: Tried,
                      run: Run)
    requires start.candidate == k && Concluded(p, observations, deadline, start, tried, run)
    requires TimePasses(p.oracle) && Clocked(p.oracle, p.begin, run)
    requires Thorough(p, start.log)
    ensures Thorough(p, run.log)
  {
    var log, n := run.log, |start.log|;
    NewAreOf(p, deadline, start, run);
    forall i: nat | LastOfCandidate(log, i)
      ensures NothingLeft(p, log, i)
    {
      if i < n {
        assert LastOfCandidate(start.log, i);
        LeftAsBefore(p, start.log, log, i);
      } else if i == |log| - 1 {
        LastHasNothingLeft(p, observations, deadline, start, tried, run);
      }
    }
  }

  lemma EachAskedLater(p: Plan, k: nat, observations: seq<Observation>, deadline: real, start: Run, tried: Tried,
                       run: Run)
    requires k >= 1 && start.candidate == k && Concluded(p, observations, deadline, start, tried, run)
    requires TimePasses(p.oracle) && p.scopes != [] && InTime(p, run)
    requires InTime(p, start) ==> deadline - start.clock >= 5.0
    requires InTime(p, start) ==> EachAsked(start.log, k - 1)
    ensures EachAsked(run.log, k)
  {
    forall j | 1 <= j <= k
      ensures Asked(run.log, j)
    {
      if j < k {
        assert Asked(start.log, j);
        var c :| c in start.log && c.candidate == j;
        assert c in run.log;
      } else {
        var c := NewCalls(start, run)[0];
        assert c in NewCalls(start, run) && c in run.log;
      }
    }
  }

  lemma NothingLeftLater(p: Plan, k: nat, observations: seq<Observation>, deadline: real, start: Run, tried: Tried,
                         run: Run)
    requires k >= 1 && start.candidate == k && LeavesNothing(p, k - 1, start)
    requires Concluded(p, observations, deadline, start, tried, run) && Clocked(p.oracle, p.begin, run)
    requires InTime(p, start) ==> deadline - start.clock >= 5.0
    ensures LeavesNothing(p, k, run)
  {
    if TimePasses(p.oracle) {
      ThoroughLater(p, k, observations, deadline, start, tried, run);
      if p.scopes != [] && InTime(p, run) {
        EachAskedLater(p, k, observations, deadline, start, tried, run);
      }
    }
  }

  lemma ConcludedDelivers(p: Plan, k: nat, planned: seq<seq<Mutation>>, observations: seq<Observation>, deadline: real,
                          start: Run, tried: Tried, run: Run)
    requires k >= 1 && start.candidate == k && Delivers(p, k - 1, planned, start)
    requires Concluded(p, observations, deadline, start, tried, run) && Clocked(p.oracle, p.begin, run)
    requires InTime(p, start) ==> deadline - start.clock >= 5.0
    ensures Delivers(p, k, WithCandidate(planned, tried), run)
  {
    PlannedLater(p, start, run, tried, planned);
    NumberedLater(p, k, deadline, start, run, tried);
    NothingLeftLater(p, k, observations, deadline, start, tried, run);
  }

  lemma DeadlineFits(p: Plan, k: nat, anyPlanned: bool, run: Run)
    requires InTime(p, run)
    ensures p.DeadlineOf(k, anyPlanned, run.clock) - run.clock >= 5.0
  {
  }

  lemma CandidateConcludes(p: Plan, observations: seq<Observation>, deadline: real, start: Run)
    requires Clocked(p.oracle, p.begin, start)
    ensures var (tried, run) := TryAll(p, observations, deadline, start);
            Concluded(p, observations, deadline, start, tried, run) && Clocked(p.oracle, p.begin, run)
  {
    TryingDelivers(p, observations, deadline, start);
    TryingIsClocked(p, observations, deadline, start);
  }

  lemma AnotherCandidate(p: Plan, k: nat, planned: seq<seq<Mutation>>, run: Run, candidate: nat)
    requires Delivers(p, k, planned, run)
    ensures Delivers(p, k, planned, run.(candidate := candidate))
  {
  }

  lemma TryingAddsItsEdit(p: Plan, k: nat, planned: seq<seq<Mutation>>, observations: seq<Observation>, deadline: real,
                          run: Run)
    requires k >= 1 && Delivers(p, k - 1, planned, run)
    requires InTime(p, run) ==> deadline - run.clock >= 5.0
    ensures var (tried, after) := TryAll(p, observations, deadline, run.(candidate := k));
            Delivers(p, k, WithCandidate(planned, tried), after)
  {
    var start := run.(candidate := k);
    AnotherCandidate(p, k - 1, planned, run, k);
    CandidateConcludes(p, observations, deadline, start);
    var (tried, after) := TryAll(p, observations, deadline, start);
    ConcludedDelivers(p, k, planned, observations, deadline, start, tried, after);
  }

  // The state of a loop that has stopped stands for all the candidates it was to have.
  ghost predicate DeliversOrEnds(p: Plan, k: nat, st: State) {
    Delivers(p, k, st.planned, st.run) && (st.done ==> k >= p.maxHypotheses || !InTime(p, st.run))
  }

  lemma NextDelivers(p: Plan, k: nat, st: State, tried: Tried, run: Run)
    requires Delivers(p, k, WithCandidate(st.planned, tried), run)
    ensures DeliversOrEnds(p, k, Next(p, k, st, tried, run))
  {
  }

  lemma CandidateDelivers(p: Plan, k: nat, st: State)
    requires k >= 1 && Delivers(p, k - 1, st.planned, st.run)
    ensures DeliversOrEnds(p, k, Candidate(p, k, st))
  {
    var deadline := p.DeadlineOf(k, st.planned != [], st.run.clock);
    if InTime(p, st.run) { DeadlineFits(p, k, st.planned != [], st.run); }
    TryingAddsItsEdit(p, k, st.planned, st.observations, deadline, st.run);
    var (tried, run) := TryAll(p, st.observations, deadline, st.run.(candidate := k));
    NextDelivers(p, k, st, tried, run);
  }

  lemma EndedDelivers(p: Plan, k: nat, st: State)
    requires 1 <= p.maxHypotheses && k <= p.maxHypotheses && DeliversOrEnds(p, k, st)
    requires st.done || k == p.maxHypotheses
    ensures DeliversOrEnds(p, p.maxHypotheses, st)
  {
  }

  lemma StartDelivers(p: Plan, initial: seq<Observation>)
    ensures DeliversOrEnds(p, 0, Start(initial, p.begin))
  {
  }

  ghost function DeliveryOf(p: Plan): (nat, State) -> bool {
    (k: nat, st: State) => DeliversOrEnds(p, k, st)
  }

  lemma StepDelivers(p: Plan, j: nat, s: State)
    requires j >= 1 && DeliveryOf(p)(j - 1, s)
    ensures DeliveryOf(p)(j, StepOf(p)(j, s))
  {
    CandidateDelivers(p, j, s);
  }

  lemma EachDelivers(p: Plan)
    requires 1 <= p.maxHypotheses
    ensures EachKeeps(StepOf(p), DeliveryOf(p), p.maxHypotheses)
  {
    forall j: nat, s | 1 <= j <= p.maxHypotheses && DeliveryOf(p)(j - 1, s)
      ensures DeliveryOf(p)(j, StepOf(p)(j, s))
    {
      StepDelivers(p, j, s);
    }
  }

  lemma EndDelivers(p: Plan)
    requires 1 <= p.maxHypotheses
    ensures EndKeeps(DeliveryOf(p), p.maxHypotheses)
  {
    forall j: nat, s | j <= p.maxHypotheses && DeliveryOf(p)(j, s) && (s.done || j == p.maxHypotheses)
      ensures DeliveryOf(p)(p.maxHypotheses, s)
    {
      EndedDelivers(p, j, s);
    }
  }

  lemma PortfolioDelivers(p: Plan, initial: seq<Observation>)
    requires 1 <= p.maxHypotheses
    ensures var end := Portfolio(p, initial); Delivers(p, p.maxHypotheses, end.planned, end.run)
  {
    StartDelivers(p, initial);
    EachDelivers(p);
    EndDelivers(p);
    LoopKeeps(StepOf(p), DeliveryOf(p), p.maxHypotheses, 1, Start(initial, p.begin));
  }

  lemma HandedOnIsExact(p: Plan, log: seq<Call>, planned: seq<seq<Mutation>>)
    requires Planned(p, log, planned)
    ensures HandedOn(planned) == if AdmittedLists(p, log) != [] then AdmittedLists(p, log)
                                 else if PicksNone(AdmittedBy(p.oracle, p.digests), log, 0, |log|) then [] else [[]]
  {
    assert planned != [] && Executable(planned) == [] ==> planned == [[]];
  }

  // Main result, over the calls made: what is handed on is every edit the model was admitted to
  // make, in order, or an abstention when there was one and no edit. An admitted edit ends
  // its candidate, so there is one for each candidate that had one; a candidate ends otherwise
  // only when all its scopes were called for or its time is up, and no candidate is left out
  // while the provider has five seconds.
  lemma PlanIsExact(initial: seq<Observation>, digests: map<string, string>, oracle: Oracle, s: Settings,
                    scopes: seq<Scope>, requested: int, budgetSeconds: int, begin: real)
    ensures var p := PlanFor(digests, oracle, s, scopes, requested, budgetSeconds, begin);
            var end := Portfolio(p, initial);
            var log := end.run.log;
            && Numbered(p, log, p.maxHypotheses) && LeavesNothing(p, p.maxHypotheses, end.run)
            && HandedOn(end.planned)
               == (if AdmittedLists(p, log) != [] then AdmittedLists(p, log)
                   else if PicksNone(AdmittedBy(oracle, digests), log, 0, |log|) then [] else [[]])
  {
    var p := PlanFor(digests, oracle, s, scopes, requested, budgetSeconds, begin);
    PortfolioDelivers(p, initial);
    var end := Portfolio(p, initial);
    HandedOnIsExact(p, end.run.log, end.planned);
  }

  lemma TailIsNewAndDistinct(initial: seq<Observation>, digests: map<string, string>, planned: seq<seq<Mutation>>)
    requires planned != [] && NewAndDistinct(initial, digests, planned)
    ensures NewAndDistinct(initial, digests, planned[1..])
  {
  }

  // What is handed on is as safe as what was planned.
  lemma HandedOnIsSafe(a: Assembly, digests: map<string, string>, oracle: Oracle, s: Settings, scopes: seq<Scope>,
                       requested: int, budgetSeconds: int, begin: real)
    ensures var p := PlanFor(digests, oracle, s, scopes, requested, budgetSeconds, begin);
            var handed := HandedOn(Portfolio(p, Assembled(a)).planned);
            NewAndDistinct(Assembled(a), digests, handed) && |handed| <= 4
  {
    var p := PlanFor(digests, oracle, s, scopes, requested, budgetSeconds, begin);
    var planned := Portfolio(p, Assembled(a)).planned;
    PortfolioIsSafe(a, digests, oracle, s, scopes, requested, budgetSeconds, begin);
    PortfolioDelivers(p, Assembled(a));
    if planned != Executable(planned) {
      assert planned[1..] == Executable(planned);
      TailIsNewAndDistinct(Assembled(a), digests, planned);
    }
  }

  /******* The first call *******/

  ghost predicate BeginsWith(p: Plan, initial: seq<Observation>, k: nat, st: State) {
    && Clocked(p.oracle, p.begin, st.run)
    && (if k == 0 then st == Start(initial, p.begin) else Asks(initial, 0, st.run))
  }

  lemma CandidateBegins(p: Plan, initial: seq<Observation>, k: nat, st: State)
    requires k >= 1 && p.scopes != [] && p.forceDeadline - p.begin >= 5.0 && BeginsWith(p, initial, k - 1, st)
    ensures BeginsWith(p, initial, k, Candidate(p, k, st))
  {
    var deadline, start := p.DeadlineOf(k, st.planned != [], st.run.clock), st.run.(candidate := k);
    CandidateConcludes(p, st.observations, deadline, start);
    if k == 1 { DeadlineFits(p, k, false, st.run); }
    var (tried, run) := TryAll(p, st.observations, deadline, start);
    assert Candidate(p, k, st) == Next(p, k, st, tried, run);
    assert k > 1 ==> run.log[0] == start.log[0];
  }

  lemma PortfolioBegins(p: Plan, initial: seq<Observation>)
    requires 1 <= p.maxHypotheses && p.scopes != [] && p.forceDeadline - p.begin >= 5.0
    ensures Asks(initial, 0, Portfolio(p, initial).run)
  {
    var inv := (k: nat, st: State) => BeginsWith(p, initial, k, st);
    forall j: nat, s | 1 <= j <= p.maxHypotheses && inv(j - 1, s)
      ensures inv(j, StepOf(p)(j, s))
    {
      CandidateBegins(p, initial, j, s);
    }
    LoopKeeps(StepOf(p), inv, p.maxHypotheses, 1, Start(initial, p.begin));
  }

  lemma {:induction false} FirstOffered(oracle: Oracle, picked: (Call, nat) -> bool, log: seq<Call>)
    requires log != [] && picked(log[0], 0)
    ensures Offers(oracle, picked, log) != [] && Offers(oracle, picked, log)[0] == Offer(oracle.reply(0))
  {
    if |log| > 1 {
      assert log[..|log| - 1][0] == log[0];
      FirstOffered(oracle, picked, log[..|log| - 1]);
    }
  }

  lemma EditExecutes(p: Plan, c: Call, n: nat)
    requires p.oracle.reply(n).Edit? && p.oracle.reply(n).mutations != []
    requires p.oracle.reply(n).unit.Some? ==> p.oracle.reply(n).unit.value !in Excluded(c.observations)
    requires !MemoryBlocks(c.observations, p.digests, p.oracle.reply(n).mutations)
    ensures ExecutesIn(p)(c, n)
  {
  }

  // So an edit the model answers at once, of no excluded unit and not blocked, is the first candidate.
  lemma FirstEditIsHandedOn(initial: seq<Observation>, digests: map<string, string>, oracle: Oracle, s: Settings,
                            scopes: seq<Scope>, requested: int, budgetSeconds: int, begin: real,
                            mutations: seq<Mutation>, unit: Option<string>)
    requires scopes != [] && oracle.reply(0) == Edit(mutations, unit) && mutations != []
    requires unit.Some? ==> unit.value !in Excluded(initial)
    requires !MemoryBlocks(initial, digests, mutations)
    ensures var end := Portfolio(PlanFor(digests, oracle, s, scopes, requested, budgetSeconds, begin), initial);
            HandedOn(end.planned) != [] && HandedOn(end.planned)[0] == mutations
  {
    var p := PlanFor(digests, oracle, s, scopes, requested, budgetSeconds, begin);
    PlanIsExact(initial, digests, oracle, s, scopes, requested, budgetSeconds, begin);
    PortfolioBegins(p, initial);
    var log := Portfolio(p, initial).run.log;
    EditExecutes(p, log[0], 0);
    FirstOffered(oracle, ExecutesIn(p), log);
  }

  /******* From one candidate to the next *******/

  ghost predicate FirstOfCandidate(log: seq<Call>, i: nat) {
    i < |log| && (i == 0 || log[i - 1].candidate != log[i].candidate)
  }

  // The reason told of a candidate whose last call was refused with time to spare is that refusal's.
  ghost predicate IsWhy(p: Plan, c: Call, i: nat, reason: Reason) {
    c.deadline - (c.at + p.oracle.seconds(i)) >= 5.0 && VerdictOn(p, c, i).Refused? ==>
      reason == VerdictOn(p, c, i).reason
  }

  // What stands behind the candidate with the calls from b to i: its edit is reserved in what its
  // first call saw, or else that is carried on behind a feedback that tells why.
  ghost predicate PassedOn(p: Plan, log: seq<Call>, b: nat, i: nat, observations: seq<Observation>)
    requires b < i <= |log|
  {
    if ExecutesIn(p)(log[i - 1], i - 1)
    then observations == Reserved(log[b].observations, Offer(p.oracle.reply(i - 1)))
    else exists reason :: observations == Carried(log[b].observations, reason)
                          && IsWhy(p, log[i - 1], i - 1, reason)
  }

  ghost predicate Follow(log: seq<Call>, b: nat, i: nat) {
    && FirstOfCandidate(log, b) && FirstOfCandidate(log, i) && b < i
    && log[i].candidate == log[b].candidate + 1
  }

  // The first call of a candidate sees what the candidate before it passed on.
  ghost predicate EachPassesOn(p: Plan, log: seq<Call>) {
    forall b: nat, i: nat :: Follow(log, b, i) ==> PassedOn(p, log, b, i, log[i].observations)
  }

  // Candidate k, if it made a call, has passed on these observations.
  ghost predicate LastPassesOn(p: Plan, log: seq<Call>, k: nat, observations: seq<Observation>) {
    forall b: nat :: FirstOfCandidate(log, b) && log[b].candidate == k ==> PassedOn(p, log, b, |log|, observations)
  }

  ghost predicate PassesOn(p: Plan, k: nat, st: State) {
    && Clocked(p.oracle, p.begin, st.run) && Numbered(p, st.run.log, k) && EachPassesOn(p, st.run.log)
    && (!st.done ==> LastPassesOn(p, st.run.log, k, st.observations))
  }

  lemma FollowsWithin(before: seq<Call>, after: seq<Call>, k: nat, b: nat, i: nat)
    requires before <= after && Follow(after, b, i)
    requires forall j :: 0 <= j < |before| ==> before[j].candidate < k
    requires forall j :: |before| <= j < |after| ==> after[j].candidate == k
    ensures b < |before| && FirstOfCandidate(before, b) && before[b] == after[b] && i <= |before|
    ensures if i < |before| then Follow(before, b, i) else before[b].candidate == k - 1
  {
    if i < |before| { assert after[i - 1] == before[i - 1] && after[i] == before[i]; }
    assert after[i - 1].candidate != k;
    assert after[b] == before[b] && (b > 0 ==> after[b - 1] == before[b - 1]);
  }

  lemma EarlierStillPassesOn(p: Plan, before: seq<Call>, after: seq<Call>, k: nat, observations: seq<Observation>)
    requires k >= 1 && before <= after && Numbered(p, before, k - 1)
    requires forall i :: |before| <= i < |after| ==> after[i].candidate == k
    requires |before| < |after| ==> after[|before|].observations == observations
    requires EachPassesOn(p, before) && LastPassesOn(p, before, k - 1, observations)
    ensures EachPassesOn(p, after)
  {
    forall b: nat, i: nat | Follow(after, b, i)
      ensures PassedOn(p, after, b, i, after[i].observations)
    {
      FollowsWithin(before, after, k, b, i);
      assert after[b] == before[b] && after[i - 1] == before[i - 1];
      if i < |before| {
        assert after[i] == before[i] && PassedOn(p, before, b, i, before[i].observations);
      } else {
        assert PassedOn(p, before, b, i, observations);
      }
    }
  }

  lemma LastPassedOn(p: Plan, start: Run, run: Run, k: nat, st: State, tried: Tried)
    requires k >= 1 && Picks(p, start, run, tried) && Numbered(p, start.log, k - 1)
    requires forall i :: |start.log| <= i < |run.log| ==> run.log[i].candidate == k
    requires |start.log| < |run.log| ==> Asks(st.observations, |start.log|, run)
    requires |start.log| < |run.log| ==> IsWhy(p, run.log[|run.log| - 1], |run.log| - 1, tried.reason)
    ensures var next := Next(p, k, st, tried, run);
            !next.done ==> LastPassesOn(p, run.log, k, next.observations)
  {
    var log, next := run.log, Next(p, k, st, tried, run);
    assert forall i :: 0 <= i < |start.log| ==> log[i] == start.log[i];
    forall b: nat | !next.done && FirstOfCandidate(log, b) && log[b].candidate == k
      ensures PassedOn(p, log, b, |log|, next.observations)
    {
      assert b == |start.log|;
      if tried.selected == [] {
        assert next.observations == Carried(st.observations, tried.reason);
      }
    }
  }

  lemma WhyItCameToNothing(p: Plan, deadline: real, start: Run, tried: Tried, run: Run)
    requires TellsWhy(p, deadline, start, tried, run) && Belongs(p, deadline, start, run)
    requires Clocked(p.oracle, p.begin, run) && |start.log| < |run.log|
    ensures IsWhy(p, run.log[|run.log| - 1], |run.log| - 1, tried.reason)
  {
    var last := |run.log| - 1;
    assert run.log[last] == NewCalls(start, run)[last - |start.log|];
  }

  lemma CandidatePassesOn(p: Plan, k: nat, st: State)
    requires k >= 1 && PassesOn(p, k - 1, st) && !st.done
    ensures PassesOn(p, k, Candidate(p, k, st))
  {
    var deadline, start := p.DeadlineOf(k, st.planned != [], st.run.clock), st.run.(candidate := k);
    CandidateConcludes(p, st.observations, deadline, start);
    var (tried, run) := TryAll(p, st.observations, deadline, start);
    NumberedLater(p, k, deadline, start, run, tried);
    NewAreOf(p, deadline, start, run);
    TryingTellsWhy(p, st.observations, deadline, start);
    if |start.log| < |run.log| { WhyItCameToNothing(p, deadline, start, tried, run); }
    EarlierStillPassesOn(p, start.log, run.log, k, st.observations);
    LastPassedOn(p, start, run, k, st, tried);
    assert Candidate(p, k, st) == Next(p, k, st, tried, run);
  }

  ghost function PassingOf(p: Plan): (nat, State) -> bool {
    (k: nat, st: State) => PassesOn(p, k, st)
  }

  lemma StepPassesOn(p: Plan, j: nat, s: State)
    requires j >= 1 && PassingOf(p)(j - 1, s) && !s.done
    ensures PassingOf(p)(j, StepOf(p)(j, s))
  {
    CandidatePassesOn(p, j, s);
  }

  lemma EachStepPassesOn(p: Plan)
    requires 1 <= p.maxHypotheses
    ensures EachKeeps(StepOf(p), PassingOf(p), p.maxHypotheses)
  {
    forall j: nat, s | 1 <= j <= p.maxHypotheses && PassingOf(p)(j - 1, s) && !s.done
      ensures PassingOf(p)(j, StepOf(p)(j, s))
    {
      StepPassesOn(p, j, s);
    }
  }

  lemma EndPassesOn(p: Plan)
    requires 1 <= p.maxHypotheses
    ensures EndKeeps(PassingOf(p), p.maxHypotheses)
  {
  }

  // Main result between candidates: whatever the first call of a candidate sees is what the first
  // call of the candidate before it saw, with that one's edit reserved, or its rejection fed back.
  lemma PortfolioPassesOn(p: Plan, initial: seq<Observation>)
    requires 1 <= p.maxHypotheses
    ensures EachPassesOn(p, Portfolio(p, initial).run.log)
  {
    EachStepPassesOn(p);
    EndPassesOn(p);
    assert PassingOf(p)(0, Start(initial, p.begin));
    LoopKeeps(StepOf(p), PassingOf(p), p.maxHypotheses, 1, Start(initial, p.begin));
  }
}
