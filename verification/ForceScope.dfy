/**
 One Force scope of one candidate: the primary model call, at most one transport retry
 and the chain of validation corrections, each under what is left of the candidate's
 deadline. The model is an arbitrary oracle; `Call` records what each call was given.
 */
module ForceScope {
  import opened Basics
  import opened ForceMemory
  import opened ForceObservations

  datatype Reply =
    | Edit(mutations: seq<Mutation>, unit: Option<string>)  // converted edit; [] is an abstention
    | Invalid(reason: Reason, unit: Option<string>)         // ValueError
    | Transport(retryable: bool, truncated: bool)           // any other error

  // What the oracle answers to its n-th call, and how long that takes.
  datatype Oracle = Oracle(reply: nat -> Reply, seconds: nat -> real)

  datatype Call = Call(candidate: nat, scope: Scope, observations: seq<Observation>, at: real, granted: int,
                       deadline: real)

  datatype Attempt =
    | Admitted(mutations: seq<Mutation>, unit: Option<string>)
    | Refused(reason: Reason, unit: Option<string>)
    | Failed(retryable: bool, truncated: bool)

  datatype Settings = Settings(timeoutSeconds: int, cpuLongCall: bool, cpuOutputBudget: bool)

  // The clock, the oracle's position and the calls made so far, each logged with the candidate and
  // the scope it was made for.
  datatype Run = Run(clock: real, calls: nat, log: seq<Call>, candidate: nat, scope: Scope)

  function ValidationTimeout(s: Settings, scope: Scope, speculative: bool): int {
    Max(if speculative then 45 else 60,
        Min(s.timeoutSeconds, if speculative then 60 else if scope == ProviderBloc then 150 else 90))
  }

  function PrimaryTimeout(s: Settings, speculative: bool): int {
    var t := Max(45, Min(s.timeoutSeconds, if speculative then 60 else 180));
    if s.cpuLongCall && !speculative then Max(t, Min(300, s.timeoutSeconds)) else t
  }

  function TransportTimeout(s: Settings, speculative: bool): int {
    Max(if speculative then 45 else 90, Min(s.timeoutSeconds, if speculative then 60 else 180))
  }

  function MaxCorrections(scope: Scope, speculative: bool): nat {
    if speculative then 0 else if scope == ProviderBloc then 3 else 1
  }

  predicate PortfolioReserved(observations: seq<Observation>) {
    exists o :: o in observations && o.source == PortfolioReservation && o.value != Rows([])
  }

  // What the model's reply becomes after the converter and the memory guard.
  function Judged(reply: Reply, observations: seq<Observation>, digests: map<string, string>): Attempt {
    match reply
    case Edit(mutations, unit) =>
      if unit.Some? && unit.value in Excluded(observations) then Refused(OtherReason("unit rejected"), None)
      else if MemoryBlocks(observations, digests, mutations) then Refused(NegativeMemory, None)
      else Admitted(mutations, unit)
    case Invalid(reason, unit) => Refused(reason, unit)
    case Transport(retryable, truncated) => Failed(retryable, truncated)
  }

  // A call, unless less than five seconds are left: that is a timeout of its own.
  function Once(observations: seq<Observation>, digests: map<string, string>, oracle: Oracle,
                deadline: real, timeoutSeconds: int, run: Run): (Attempt, Run)
  {
    var remaining := deadline - run.clock;
    if remaining < 5.0 then (Failed(true, false), run)
    else
      var granted := Max(5, Min(timeoutSeconds, remaining.Floor));
      (Judged(oracle.reply(run.calls), observations, digests),
       run.(clock := run.clock + oracle.seconds(run.calls), calls := run.calls + 1,
            log := run.log + [Call(run.candidate, run.scope, observations, run.clock, granted, deadline)]))
  }

  /******* What a stretch of calls guarantees *******/

  // A call is granted no more than is left of its deadline.
  ghost predicate WithinDeadline(c: Call, deadline: real) {
    c.deadline == deadline && 5 <= c.granted && c.granted as real <= deadline - c.at
  }

  function NewCalls(before: Run, after: Run): seq<Call>
    requires before.log <= after.log
  {
    after.log[|before.log|..]
  }

  // The calls made between two moments: each within the deadline, each seeing every
  // guard row of `base`, and none offered a unit an earlier one had excluded.
  ghost predicate OrderlyCalls(base: seq<Observation>, calls: seq<Call>, deadline: real) {
    && (forall i :: 0 <= i < |calls| ==> WithinDeadline(calls[i], deadline) && Sees(base, calls[i].observations))
    && (forall i, j :: 0 <= i < j < |calls| ==> Excluded(calls[i].observations) <= Excluded(calls[j].observations))
  }

  ghost predicate Sees(base: seq<Observation>, observations: seq<Observation>) {
    GuardsSurvive(base, observations) && Excluded(base) <= Excluded(observations)
  }

  // An admitted edit avoids the units excluded when it was asked for and everything
  // the guard remembered at the start.
  ghost predicate Admissible(a: Attempt, base: seq<Observation>, digests: map<string, string>, calls: seq<Call>) {
    a.Admitted? ==>
      && calls != [] && !MemoryBlocks(base, digests, a.mutations)
      && (a.unit.Some? ==> a.unit.value !in Excluded(calls[|calls| - 1].observations))
  }

  lemma OneMoreCall(base: seq<Observation>, start: Run, deadline: real, observations: seq<Observation>,
                    digests: map<string, string>, oracle: Oracle, timeoutSeconds: int, run: Run)
    requires start.log <= run.log && OrderlyCalls(base, NewCalls(start, run), deadline) && Sees(base, observations)
    requires forall c :: c in NewCalls(start, run) ==> Excluded(c.observations) <= Excluded(observations)
    ensures var (attempt, after) := Once(observations, digests, oracle, deadline, timeoutSeconds, run);
            && run.log <= after.log && |after.log| <= |run.log| + 1
            && OrderlyCalls(base, NewCalls(start, after), deadline)
            && Admissible(attempt, base, digests, NewCalls(start, after))
            && (forall c :: c in NewCalls(start, after) ==> c in NewCalls(start, run) || c.observations == observations)
  {
    var (attempt, after) := Once(observations, digests, oracle, deadline, timeoutSeconds, run);
    if deadline - run.clock >= 5.0 {
      var c := after.log[|run.log|];
      assert NewCalls(start, after) == NewCalls(start, run) + [c] && WithinDeadline(c, deadline);
      if attempt.Admitted? && MemoryBlocks(base, digests, attempt.mutations) {
        SurvivingGuardsBlock(base, observations, digests, attempt.mutations);
      }
    }
  }

  /******* The validation chain *******/

  // Correction k to `last`, each asked for with the feedback of the rejection before. A
  // transport error while correcting does not erase the rejection it followed.
  function Chain(once: (seq<Observation>, Run) -> (Attempt, Run), current: seq<Observation>, reason: Reason,
                 unit: Option<string>, k: nat, last: nat, run: Run): (Attempt, Run)
    decreases last - k
  {
    if k >= last then (Refused(reason, unit), run)
    else
      var retry := AfterRejection(current, reason, unit);
      var (attempt, after) := once(retry, run);
      match attempt
      case Admitted(_, _) => (attempt, after)
      case Refused(r, u) => Chain(once, retry, r, u, k + 1, last, after)
      case Failed(_, _) => (Refused(reason, unit), after)
  }

  function OnceIn(digests: map<string, string>, oracle: Oracle, deadline: real, timeoutSeconds: int):
    (seq<Observation>, Run) -> (Attempt, Run)
  {
    (observations: seq<Observation>, run: Run) => Once(observations, digests, oracle, deadline, timeoutSeconds, run)
  }

  method RunValidationChain(request: seq<Observation>, reason0: Reason, unit0: Option<string>, corrections: nat,
                            digests: map<string, string>, oracle: Oracle, deadline: real, timeoutSeconds: int,
                            run0: Run)
    returns (attempt: Attempt, run: Run)
    ensures (attempt, run) == Chain(OnceIn(digests, oracle, deadline, timeoutSeconds), request, reason0, unit0, 0,
                                    corrections, run0)
  {
    ghost var once := OnceIn(digests, oracle, deadline, timeoutSeconds);
    var current, reason, unit := request, reason0, unit0;
    run := run0;
    for k := 0 to corrections
      invariant Chain(once, current, reason, unit, k, corrections, run)
                == Chain(once, request, reason0, unit0, 0, corrections, run0)
    {
      var retry := ValidationFeedbackFor(current, reason, unit);
      var (a, after) := Once(retry, digests, oracle, deadline, timeoutSeconds, run);
      run := after;
      match a
      case Admitted(_, _) => return a, run;
      case Refused(r, u) => current, reason, unit := retry, r, u;
      case Failed(_, _) => return Refused(reason, unit), run;
    }
    return Refused(reason, unit), run;
  }

  // Where a chain stands in front of correction k + 1, `start` being the scope's start.
  ghost predicate ChainState(base: seq<Observation>, start: Run, current: seq<Observation>, k: nat,
                             deadline: real, run: Run)
  {
    && PlainGuards(current) && BoundedFeedback(current, k + 1) && Sees(base, current)
    && start.log <= run.log && OrderlyCalls(base, NewCalls(start, run), deadline)
    && forall c :: c in NewCalls(start, run) ==> Excluded(c.observations) <= Excluded(current)
  }

  lemma ChainStep(base: seq<Observation>, start: Run, current: seq<Observation>, reason: Reason, unit: Option<string>,
                  k: nat, digests: map<string, string>, oracle: Oracle, deadline: real, timeoutSeconds: int, run: Run)
    requires k < 3 && ChainState(base, start, current, k, deadline, run)
    ensures var retry := AfterRejection(current, reason, unit);
            var (attempt, after) := Once(retry, digests, oracle, deadline, timeoutSeconds, run);
            && run.log <= after.log && |after.log| <= |run.log| + 1
            && ChainState(base, start, retry, k + 1, deadline, after)
            && Admissible(attempt, base, digests, NewCalls(start, after))
  {
    var retry := AfterRejection(current, reason, unit);
    RejectionKeepsGuards(current, reason, unit);
    RejectionOnlyAddsExclusions(current, reason, unit);
    RejectionAddsOneFeedback(current, reason, unit, k + 1);
    OneMoreCall(base, start, deadline, retry, digests, oracle, timeoutSeconds, run);
  }

  // Over a whole chain the excluded units only grow, the guard rows stay, every call is
  // within the deadline, and what is admitted avoids both.
  lemma {:induction false} ChainIsOrderly(base: seq<Observation>, start: Run,
      current: seq<Observation>, reason: Reason, unit: Option<string>, k: nat, last: nat,
      digests: map<string, string>, oracle: Oracle, deadline: real, timeoutSeconds: int, run: Run)
    requires k <= last <= 3 && ChainState(base, start, current, k, deadline, run)
    ensures var (attempt, after) := Chain(OnceIn(digests, oracle, deadline, timeoutSeconds), current, reason, unit, k,
                                          last, run);
            && run.log <= after.log && |after.log| <= |run.log| + last - k
            && OrderlyCalls(base, NewCalls(start, after), deadline)
            && Admissible(attempt, base, digests, NewCalls(start, after))
    decreases last - k
  {
    if k < last {
      ChainStep(base, start, current, reason, unit, k, digests, oracle, deadline, timeoutSeconds, run);
      var retry := AfterRejection(current, reason, unit);
      var (attempt, after) := Once(retry, digests, oracle, deadline, timeoutSeconds, run);
      if attempt.Refused? {
        ChainIsOrderly(base, start, retry, attempt.reason, attempt.unit, k + 1, last,
                       digests, oracle, deadline, timeoutSeconds, after);
      }
    }
  }

  /******* The scope *******/

  // The chain behind an attempt, when it was refused.
  function Corrected(attempt: Attempt, run: Run, observations: seq<Observation>, digests: map<string, string>,
                     oracle: Oracle, s: Settings, scope: Scope, deadline: real): (Attempt, Run)
  {
    var speculative := PortfolioReserved(observations);
    if attempt.Refused? then
      Chain(OnceIn(digests, oracle, deadline, ValidationTimeout(s, scope, speculative)), observations, attempt.reason,
            attempt.unit, 0, MaxCorrections(scope, speculative), run)
    else (attempt, run)
  }

  predicate RetriesTransport(attempt: Attempt, observations: seq<Observation>, s: Settings) {
    attempt.Failed? && attempt.retryable && (attempt.truncated ==> s.cpuOutputBudget)
      && !PortfolioReserved(observations)
  }

  function RetryTimeout(attempt: Attempt, observations: seq<Observation>, s: Settings): int {
    var speculative := PortfolioReserved(observations);
    var timeout := TransportTimeout(s, speculative);
    if s.cpuOutputBudget && attempt.Failed? && attempt.truncated
    then Max(timeout, PrimaryTimeout(s, speculative)) else timeout
  }

  // The primary call, and its transport retry.
  function Requested(observations: seq<Observation>, digests: map<string, string>, oracle: Oracle, s: Settings,
                     deadline: real, run: Run): (Attempt, Run)
  {
    var (first, run1) := Once(observations, digests, oracle, deadline,
                              PrimaryTimeout(s, PortfolioReserved(observations)), run);
    if RetriesTransport(first, observations, s) then
      Once(observations, digests, oracle, deadline, RetryTimeout(first, observations, s), run1)
    else (first, run1)
  }

  function ScopeRun(observations: seq<Observation>, digests: map<string, string>, oracle: Oracle,
                    s: Settings, scope: Scope, deadline: real, run0: Run): (Attempt, Run)
  {
    var (attempt, run) := Requested(observations, digests, oracle, s, deadline, run0.(scope := scope));
    Corrected(attempt, run, observations, digests, oracle, s, scope, deadline)
  }

  // A scope makes at most five calls for a Bloc and three otherwise, one once a
  // candidate is reserved, and never loses track of what it must not repeat.
  ghost predicate OrderlyScope(observations: seq<Observation>, digests: map<string, string>, scope: Scope,
                               deadline: real, run0: Run, attempt: Attempt, run: Run)
  {
    && run0.log <= run.log
    && |NewCalls(run0, run)| <= (if PortfolioReserved(observations) then 1 else if scope == ProviderBloc then 5 else 3)
    && OrderlyCalls(observations, NewCalls(run0, run), deadline)
    && Admissible(attempt, observations, digests, NewCalls(run0, run))
  }

  lemma ScopeIsOrderly(observations: seq<Observation>, digests: map<string, string>, oracle: Oracle,
                       s: Settings, scope: Scope, deadline: real, run0: Run)
    requires PlainGuards(observations) && BoundedFeedback(observations, 1)
    ensures var (attempt, run) := ScopeRun(observations, digests, oracle, s, scope, deadline, run0);
            OrderlyScope(observations, digests, scope, deadline, run0, attempt, run)
  {
    var speculative := PortfolioReserved(observations);
    var primary := PrimaryTimeout(s, speculative);
    OneMoreCall(observations, run0, deadline, observations, digests, oracle, primary, run0.(scope := scope));
    var (first, run1) := Once(observations, digests, oracle, deadline, primary, run0.(scope := scope));
    if RetriesTransport(first, observations, s) {
      var timeout := RetryTimeout(first, observations, s);
      OneMoreCall(observations, run0, deadline, observations, digests, oracle, timeout, run1);
      var (second, run2) := Once(observations, digests, oracle, deadline, timeout, run1);
      CorrectionIsOrderly(second, run2, run0, observations, digests, oracle, s, scope, deadline);
    } else {
      CorrectionIsOrderly(first, run1, run0, observations, digests, oracle, s, scope, deadline);
    }
  }

  lemma CorrectionIsOrderly(attempt: Attempt, run: Run, run0: Run, observations: seq<Observation>,
                            digests: map<string, string>, oracle: Oracle, s: Settings, scope: Scope, deadline: real)
    requires PlainGuards(observations) && BoundedFeedback(observations, 1) && run0.log <= run.log
    requires OrderlyCalls(observations, NewCalls(run0, run), deadline)
    requires forall c :: c in NewCalls(run0, run) ==> c.observations == observations
    requires Admissible(attempt, observations, digests, NewCalls(run0, run))
    ensures var (attempt', run') := Corrected(attempt, run, observations, digests, oracle, s, scope, deadline);
            && run.log <= run'.log
            && |run'.log| <= |run.log| + MaxCorrections(scope, PortfolioReserved(observations))
            && OrderlyCalls(observations, NewCalls(run0, run'), deadline)
            && Admissible(attempt', observations, digests, NewCalls(run0, run'))
  {
    if attempt.Refused? {
      var speculative := PortfolioReserved(observations);
      ChainIsOrderly(observations, run0, observations, attempt.reason, attempt.unit, 0,
                     MaxCorrections(scope, speculative),
                     digests, oracle, deadline, ValidationTimeout(s, scope, speculative), run);
    }
  }

  method RunForceScope(observations: seq<Observation>, digests: map<string, string>, oracle: Oracle,
                       s: Settings, scope: Scope, deadline: real, run0: Run)
    returns (attempt: Attempt, run: Run)
    ensures (attempt, run) == ScopeRun(observations, digests, oracle, s, scope, deadline, run0)
    ensures PlainGuards(observations) && BoundedFeedback(observations, 1)
            ==> OrderlyScope(observations, digests, scope, deadline, run0, attempt, run)
  {
    var speculative := PortfolioReserved(observations);
    var outcome := Once(observations, digests, oracle, deadline, PrimaryTimeout(s, speculative),
                        run0.(scope := scope));
    attempt, run := outcome.0, outcome.1;
    if RetriesTransport(attempt, observations, s) {
      outcome := Once(observations, digests, oracle, deadline, RetryTimeout(attempt, observations, s), run);
      attempt, run := outcome.0, outcome.1;
    }
    if attempt.Refused? {
      attempt, run := RunValidationChain(observations, attempt.reason, attempt.unit, MaxCorrections(scope, speculative),
                                         digests, oracle, deadline, ValidationTimeout(s, scope, speculative), run);
    }
    if PlainGuards(observations) && BoundedFeedback(observations, 1) {
      ScopeIsOrderly(observations, digests, oracle, s, scope, deadline, run0);
    }
  }

  /******* Time *******/

  // The n-th logged call is the oracle's n-th, and the clock stands where it ended.
  ghost predicate Clocked(oracle: Oracle, begin: real, run: Run) {
    && run.calls == |run.log|
    && run.clock == if run.log == [] then begin
                    else run.log[|run.log| - 1].at + oracle.seconds(|run.log| - 1)
  }

  lemma {:induction false} ChainIsClocked(begin: real, current: seq<Observation>, reason: Reason, unit: Option<string>,
      k: nat, last: nat, digests: map<string, string>, oracle: Oracle, deadline: real, timeoutSeconds: int, run: Run)
    requires Clocked(oracle, begin, run)
    ensures Clocked(oracle, begin,
                    Chain(OnceIn(digests, oracle, deadline, timeoutSeconds), current, reason, unit, k, last, run).1)
    decreases last - k
  {
    if k < last {
      var retry := AfterRejection(current, reason, unit);
      var (attempt, after) := Once(retry, digests, oracle, deadline, timeoutSeconds, run);
      if attempt.Refused? {
        ChainIsClocked(begin, retry, attempt.reason, attempt.unit, k + 1, last, digests, oracle, deadline,
                       timeoutSeconds, after);
      }
    }
  }

  lemma ScopeIsClocked(begin: real, observations: seq<Observation>, digests: map<string, string>, oracle: Oracle,
                       s: Settings, scope: Scope, deadline: real, run0: Run)
    requires Clocked(oracle, begin, run0)
    ensures Clocked(oracle, begin, ScopeRun(observations, digests, oracle, s, scope, deadline, run0).1)
  {
    var speculative := PortfolioReserved(observations);
    var (attempt, run) := Once(observations, digests, oracle, deadline, PrimaryTimeout(s, speculative),
                               run0.(scope := scope));
    if RetriesTransport(attempt, observations, s) {
      var second := Once(observations, digests, oracle, deadline, RetryTimeout(attempt, observations, s), run);
      attempt, run := second.0, second.1;
    }
    if attempt.Refused? {
      ChainIsClocked(begin, observations, attempt.reason, attempt.unit, 0, MaxCorrections(scope, speculative),
                     digests, oracle, deadline, ValidationTimeout(s, scope, speculative), run);
    }
  }

  /******* What the calls tell of the attempt *******/

  // Call n, answered with an edit of a unit not excluded that the guard lets through.
  ghost predicate Admits(oracle: Oracle, digests: map<string, string>, c: Call, n: nat) {
    match oracle.reply(n)
    case Edit(mutations, unit) =>
      && (unit.Some? ==> unit.value !in Excluded(c.observations))
      && !MemoryBlocks(c.observations, digests, mutations)
    case _ => false
  }

  ghost function AdmittedBy(oracle: Oracle, digests: map<string, string>): (Call, nat) -> bool {
    (c: Call, n: nat) => Admits(oracle, digests, c, n)
  }

  ghost predicate PicksNone(picked: (Call, nat) -> bool, log: seq<Call>, from: nat, to: int) {
    forall i {:trigger log[i]} :: from <= i < to && i < |log| ==> !picked(log[i], i)
  }

  lemma NoneOfMore(picked: (Call, nat) -> bool, from: nat, before: seq<Call>, after: seq<Call>, last: int)
    requires before <= after && from <= |before| && last == |after| - 1
    requires PicksNone(picked, before, from, |before|) && PicksNone(picked, after, |before|, last)
    ensures PicksNone(picked, after, from, last)
  {
    forall i | from <= i < last
      ensures !picked(after[i], i)
    {
      assert i < |before| ==> before[i] == after[i];
    }
  }

  // Only the last of the calls from here on may be picked; then the attempt is its edit.
  ghost predicate EndsWith(picked: (Call, nat) -> bool, oracle: Oracle, from: nat, log: seq<Call>, attempt: Attempt) {
    var last := |log| - 1;
    && PicksNone(picked, log, from, last)
    && if from <= last && picked(log[last], last)
       then attempt.Admitted? && oracle.reply(last) == Edit(attempt.mutations, attempt.unit)
       else !attempt.Admitted?
  }

  lemma EndsLater(picked: (Call, nat) -> bool, oracle: Oracle, from: nat, before: seq<Call>, after: seq<Call>,
                  first: Attempt, second: Attempt)
    requires from <= |before| && before <= after && !first.Admitted?
    requires EndsWith(picked, oracle, from, before, first) && EndsWith(picked, oracle, |before|, after, second)
    ensures EndsWith(picked, oracle, from, after, second)
  {
    var last := |before| - 1;
    if from <= last && last < |after| { assert after[last] == before[last]; }
    NoneOfMore(picked, from, before, after, |after| - 1);
  }

  ghost predicate Concludes(oracle: Oracle, digests: map<string, string>, before: Run, after: Run, attempt: Attempt) {
    && before.log <= after.log && after.calls == |after.log|
    && EndsWith(AdmittedBy(oracle, digests), oracle, |before.log|, after.log, attempt)
  }

  ghost predicate TimePasses(oracle: Oracle) {
    forall n :: oracle.seconds(n) >= 0.0
  }

  // The calls of the stretch carry the candidate and the scope it was begun with, and the deadline.
  ghost predicate StaysWith(oracle: Oracle, deadline: real, before: Run, after: Run) {
    && before.log <= after.log && after.candidate == before.candidate && after.scope == before.scope
    && (forall c :: c in NewCalls(before, after) ==>
          c.candidate == before.candidate && c.scope == before.scope && c.deadline == deadline)
    && (TimePasses(oracle) ==> before.clock <= after.clock)
  }

  lemma OnceConcludes(observations: seq<Observation>, digests: map<string, string>, oracle: Oracle,
                      deadline: real, timeoutSeconds: int, run: Run)
    requires run.calls == |run.log|
    ensures var (attempt, after) := Once(observations, digests, oracle, deadline, timeoutSeconds, run);
            && Concludes(oracle, digests, run, after, attempt) && StaysWith(oracle, deadline, run, after)
            && (deadline - run.clock >= 5.0 ==>
                  |after.log| == |run.log| + 1 && after.log[|run.log|].observations == observations)
  {
  }

  lemma StaysLater(oracle: Oracle, deadline: real, before: Run, between: Run, after: Run)
    requires StaysWith(oracle, deadline, before, between) && StaysWith(oracle, deadline, between, after)
    ensures StaysWith(oracle, deadline, before, after)
  {
    assert NewCalls(before, after) == NewCalls(before, between) + NewCalls(between, after);
  }

  lemma ConcludesLater(oracle: Oracle, digests: map<string, string>, deadline: real, before: Run, between: Run,
                       after: Run, first: Attempt, second: Attempt)
    requires Concludes(oracle, digests, before, between, first) && StaysWith(oracle, deadline, before, between)
    requires !first.Admitted?
    requires Concludes(oracle, digests, between, after, second) && StaysWith(oracle, deadline, between, after)
    ensures Concludes(oracle, digests, before, after, second) && StaysWith(oracle, deadline, before, after)
  {
    EndsLater(AdmittedBy(oracle, digests), oracle, |before.log|, between.log, after.log, first, second);
    StaysLater(oracle, deadline, before, between, after);
  }

  lemma {:induction false} ChainConcludes(current: seq<Observation>, reason: Reason, unit: Option<string>, k: nat,
      last: nat, digests: map<string, string>, oracle: Oracle, deadline: real, timeoutSeconds: int, run: Run)
    requires run.calls == |run.log|
    ensures var (attempt, after) := Chain(OnceIn(digests, oracle, deadline, timeoutSeconds), current, reason, unit, k,
                                          last, run);
            Concludes(oracle, digests, run, after, attempt) && StaysWith(oracle, deadline, run, after)
    decreases last - k
  {
    if k < last {
      var retry := AfterRejection(current, reason, unit);
      OnceConcludes(retry, digests, oracle, deadline, timeoutSeconds, run);
      var (attempt, between) := Once(retry, digests, oracle, deadline, timeoutSeconds, run);
      if attempt.Refused? {
        ChainConcludes(retry, attempt.reason, attempt.unit, k + 1, last, digests, oracle, deadline, timeoutSeconds,
                       between);
        var (second, after) := Chain(OnceIn(digests, oracle, deadline, timeoutSeconds), retry, attempt.reason,
                                     attempt.unit, k + 1, last, between);
        ConcludesLater(oracle, digests, deadline, run, between, after, attempt, second);
      }
    }
  }

  lemma CorrectedConcludes(attempt: Attempt, run0: Run, run: Run, observations: seq<Observation>,
                           digests: map<string, string>, oracle: Oracle, s: Settings, scope: Scope, deadline: real)
    requires Concludes(oracle, digests, run0, run, attempt) && StaysWith(oracle, deadline, run0, run)
    ensures var (attempt', after) := Corrected(attempt, run, observations, digests, oracle, s, scope, deadline);
            && Concludes(oracle, digests, run0, after, attempt')
            && StaysWith(oracle, deadline, run0, after) && run.log <= after.log
  {
    if attempt.Refused? {
      var speculative := PortfolioReserved(observations);
      ChainConcludes(observations, attempt.reason, attempt.unit, 0, MaxCorrections(scope, speculative), digests,
                     oracle, deadline, ValidationTimeout(s, scope, speculative), run);
      var (attempt', after) := Corrected(attempt, run, observations, digests, oracle, s, scope, deadline);
      ConcludesLater(oracle, digests, deadline, run0, run, after, attempt, attempt');
    }
  }

  // The first call of a stretch sees the request.
  ghost predicate Asks(observations: seq<Observation>, n: nat, run: Run) {
    n < |run.log| && run.log[n].observations == observations
  }

  lemma RequestConcludes(observations: seq<Observation>, digests: map<string, string>, oracle: Oracle,
                         s: Settings, deadline: real, run: Run)
    returns (attempt: Attempt, after: Run)
    requires run.calls == |run.log|
    ensures (attempt, after) == Requested(observations, digests, oracle, s, deadline, run)
    ensures Concludes(oracle, digests, run, after, attempt) && StaysWith(oracle, deadline, run, after)
    ensures deadline - run.clock >= 5.0 ==> Asks(observations, |run.log|, after)
  {
    var primary := PrimaryTimeout(s, PortfolioReserved(observations));
    OnceConcludes(observations, digests, oracle, deadline, primary, run);
    var (first, run1) := Once(observations, digests, oracle, deadline, primary, run);
    attempt, after := first, run1;
    if RetriesTransport(first, observations, s) {
      var timeout := RetryTimeout(first, observations, s);
      OnceConcludes(observations, digests, oracle, deadline, timeout, run1);
      var (second, run2) := Once(observations, digests, oracle, deadline, timeout, run1);
      ConcludesLater(oracle, digests, deadline, run, run1, run2, first, second);
      attempt, after := second, run2;
    }
  }

  lemma SameButScope(oracle: Oracle, digests: map<string, string>, before: Run, scope: Scope, after: Run,
                     attempt: Attempt)
    requires Concludes(oracle, digests, before.(scope := scope), after, attempt)
    ensures Concludes(oracle, digests, before, after, attempt)
  {
  }

  // A scope ends with the first edit that is admitted, and asks at least once when five seconds
  // are left; its first call sees the request.
  lemma ScopeConcludes(observations: seq<Observation>, digests: map<string, string>, oracle: Oracle,
                       s: Settings, scope: Scope, deadline: real, run0: Run)
    requires run0.calls == |run0.log|
    ensures var (attempt, run) := ScopeRun(observations, digests, oracle, s, scope, deadline, run0);
            && Concludes(oracle, digests, run0, run, attempt)
            && StaysWith(oracle, deadline, run0.(scope := scope), run)
            && (deadline - run0.clock >= 5.0 ==> Asks(observations, |run0.log|, run))
  {
    var begin := run0.(scope := scope);
    var attempt, run := RequestConcludes(observations, digests, oracle, s, deadline, begin);
    CorrectedConcludes(attempt, begin, run, observations, digests, oracle, s, scope, deadline);
    var (attempt', after) := Corrected(attempt, run, observations, digests, oracle, s, scope, deadline);
    SameButScope(oracle, digests, run0, scope, after, attempt');
  }

  /******* What the corrections follow *******/

  // The verdict on the reply to a call, by what the call saw.
  ghost function JudgedBy(oracle: Oracle, digests: map<string, string>): (nat, seq<Observation>) -> Attempt {
    (n: nat, seen: seq<Observation>) => Judged(oracle.reply(n), seen, digests)
  }

  // The verdict on the call in front of call i; in front of the first one stands `first`.
  ghost function VerdictBefore(judged: (nat, seq<Observation>) -> Attempt, log: seq<Call>, n: nat, i: nat,
                               first: Attempt): Attempt
    requires n <= i <= |log|
  {
    if i == n then first else judged(i - 1, log[i - 1].observations)
  }

  // Call i corrects the refusal in front of it: it sees what that call saw and its feedback.
  ghost predicate Corrects(judged: (nat, seq<Observation>) -> Attempt, log: seq<Call>, n: nat, i: nat, first: Attempt,
                           request: seq<Observation>)
    requires n <= i < |log|
  {
    var verdict := VerdictBefore(judged, log, n, i, first);
    var seen := if i == n then request else log[i - 1].observations;
    verdict.Refused? && log[i].observations == AfterRejection(seen, verdict.reason, verdict.unit)
  }

  // A chain of calls from n on: each corrects the one before, an admitted edit ends it, so does a
  // transport error, which leaves the refusal it followed; otherwise all corrections are
  // spent or time is up.
  ghost predicate Follows(judged: (nat, seq<Observation>) -> Attempt, n: nat, allowed: nat, deadline: real,
                          first: Attempt, request: seq<Observation>, attempt: Attempt, run: Run)
  {
    var end := |run.log|;
    && n <= end <= n + allowed
    && (forall i :: n <= i < end ==> Corrects(judged, run.log, n, i, first, request))
    && var final := VerdictBefore(judged, run.log, n, end, first);
       if final.Failed? then n < end && attempt == VerdictBefore(judged, run.log, n, end - 1, first)
       else attempt == final && (final.Refused? ==> end == n + allowed || deadline - run.clock < 5.0)
  }

  lemma FollowsFrom(judged: (nat, seq<Observation>) -> Attempt, n: nat, allowed: nat, deadline: real, first: Attempt,
                    request: seq<Observation>, retry: seq<Observation>, second: Attempt, between: Run, attempt: Attempt,
                    run: Run)
    requires first.Refused? && second.Refused? && allowed > 0
    requires between.log <= run.log && |between.log| == n + 1
    requires between.log[n].observations == retry == AfterRejection(request, first.reason, first.unit)
    requires second == judged(n, retry)
    requires Follows(judged, n + 1, allowed - 1, deadline, second, retry, attempt, run)
    ensures Follows(judged, n, allowed, deadline, first, request, attempt, run)
  {
    assert run.log[n] == between.log[n];
    forall i | n <= i < |run.log|
      ensures Corrects(judged, run.log, n, i, first, request)
    {
      if i > n { assert Corrects(judged, run.log, n + 1, i, second, retry); }
    }
  }

  // A correction that is not refused ends the chain.
  lemma FollowsLast(judged: (nat, seq<Observation>) -> Attempt, n: nat, allowed: nat, deadline: real, first: Attempt,
                    request: seq<Observation>, second: Attempt, run: Run)
    requires first.Refused? && !second.Refused? && |run.log| == n + 1 && allowed > 0
    requires run.log[n].observations == AfterRejection(request, first.reason, first.unit)
    requires second == judged(n, run.log[n].observations)
    ensures Follows(judged, n, allowed, deadline, first, request, if second.Admitted? then second else first, run)
  {
  }

  lemma FollowsNone(judged: (nat, seq<Observation>) -> Attempt, allowed: nat, deadline: real, first: Attempt,
                    request: seq<Observation>, run: Run)
    requires first.Refused? && (allowed == 0 || deadline - run.clock < 5.0)
    ensures Follows(judged, |run.log|, allowed, deadline, first, request, first, run)
  {
  }

  // A call is made and judged, unless less than five seconds are left.
  ghost predicate IsCall(judged: (nat, seq<Observation>) -> Attempt, observations: seq<Observation>, deadline: real,
                         run: Run, called: (Attempt, Run))
  {
    var (attempt, after) := called;
    if deadline - run.clock < 5.0 then attempt == Failed(true, false) && after == run
    else
      && run.log <= after.log && after.calls == |after.log| == |run.log| + 1
      && after.log[|run.log|].observations == observations && attempt == judged(|run.log|, observations)
  }

  ghost predicate Calls(once: (seq<Observation>, Run) -> (Attempt, Run), judged: (nat, seq<Observation>) -> Attempt,
                        deadline: real)
  {
    forall seen, run: Run {:trigger IsCall(judged, seen, deadline, run, once(seen, run))} ::
      run.calls == |run.log| ==> IsCall(judged, seen, deadline, run, once(seen, run))
  }

  lemma OnceCalls(digests: map<string, string>, oracle: Oracle, deadline: real, timeoutSeconds: int)
    ensures Calls(OnceIn(digests, oracle, deadline, timeoutSeconds), JudgedBy(oracle, digests), deadline)
  {
  }

  // Main result on a chain, over the calls made.
  lemma {:induction false} ChainFollows(once: (seq<Observation>, Run) -> (Attempt, Run),
      judged: (nat, seq<Observation>) -> Attempt, current: seq<Observation>, reason: Reason, unit: Option<string>,
      k: nat, last: nat, deadline: real, run: Run)
    requires k <= last && run.calls == |run.log| && Calls(once, judged, deadline)
    ensures var (attempt, after) := Chain(once, current, reason, unit, k, last, run);
            && run.log <= after.log
            && Follows(judged, |run.log|, last - k, deadline, Refused(reason, unit), current, attempt, after)
    decreases last - k
  {
    var n, retry, first := |run.log|, AfterRejection(current, reason, unit), Refused(reason, unit);
    if k == last || deadline - run.clock < 5.0 {
      FollowsNone(judged, last - k, deadline, first, current, run);
      assert k < last ==> IsCall(judged, retry, deadline, run, once(retry, run));
    } else {
      assert IsCall(judged, retry, deadline, run, once(retry, run));
      var (second, between) := once(retry, run);
      if second.Refused? {
        ChainFollows(once, judged, retry, second.reason, second.unit, k + 1, last, deadline, between);
        var (attempt, after) := Chain(once, retry, second.reason, second.unit, k + 1, last, between);
        assert Chain(once, current, reason, unit, k, last, run) == (attempt, after);
        FollowsFrom(judged, n, last - k, deadline, first, current, retry, second, between, attempt, after);
      } else {
        assert Chain(once, current, reason, unit, k, last, run)
               == (if second.Admitted? then second else first, between);
        FollowsLast(judged, n, last - k, deadline, first, current, second, between);
      }
    }
  }

  predicate RetryableReply(reply: Reply, observations: seq<Observation>, s: Settings) {
    reply.Transport? && reply.retryable && (reply.truncated ==> s.cpuOutputBudget) && !PortfolioReserved(observations)
  }

  // The calls of a scope in front of its corrections: none without five seconds, a second one
  // exactly behind a retryable transport error, and all see the request.
  ghost predicate Requests(oracle: Oracle, observations: seq<Observation>, s: Settings, deadline: real, run0: Run,
                           n: nat, log: seq<Call>)
  {
    var from := |run0.log|;
    && from <= n <= from + 2 && n <= |log|
    && (n == from <==> deadline - run0.clock < 5.0)
    && (forall i :: from <= i < n ==> log[i].observations == observations)
    && (n == from + 2 ==> RetryableReply(oracle.reply(from), observations, s))
    && (n == from + 1 && RetryableReply(oracle.reply(from), observations, s) ==>
          deadline - (run0.clock + oracle.seconds(from)) < 5.0)
  }

  // What becomes of the verdict on the last of them: a refusal is corrected, three times for a Bloc,
  // once otherwise, never with a candidate reserved.
  ghost predicate Answers(oracle: Oracle, digests: map<string, string>, observations: seq<Observation>, scope: Scope,
                          deadline: real, from: nat, n: nat, attempt: Attempt, run: Run)
    requires from <= n <= |run.log|
  {
    var verdict := VerdictBefore(JudgedBy(oracle, digests), run.log, from, n, Failed(true, false));
    var allowed := if PortfolioReserved(observations) then 0 else if scope == ProviderBloc then 3 else 1;
    if verdict.Refused?
    then Follows(JudgedBy(oracle, digests), n, allowed, deadline, verdict, observations, attempt, run)
    else n == |run.log| && (if verdict.Admitted? then attempt == verdict else attempt.Failed?)
  }

  lemma CorrectionFollows(oracle: Oracle, digests: map<string, string>, observations: seq<Observation>, s: Settings,
                          scope: Scope, deadline: real, from: nat, attempt: Attempt, run: Run)
    requires run.calls == |run.log| && from <= |run.log|
    requires var verdict := VerdictBefore(JudgedBy(oracle, digests), run.log, from, |run.log|, Failed(true, false));
             attempt == verdict || (attempt.Failed? && verdict.Failed?)
    ensures var (attempt', after) := Corrected(attempt, run, observations, digests, oracle, s, scope, deadline);
            run.log <= after.log
            && Answers(oracle, digests, observations, scope, deadline, from, |run.log|, attempt', after)
  {
    if attempt.Refused? {
      var speculative := PortfolioReserved(observations);
      var timeout := ValidationTimeout(s, scope, speculative);
      OnceCalls(digests, oracle, deadline, timeout);
      ChainFollows(OnceIn(digests, oracle, deadline, timeout), JudgedBy(oracle, digests), observations, attempt.reason,
                   attempt.unit, 0, MaxCorrections(scope, speculative), deadline, run);
    }
  }

  // Main result on a scope, over the calls made.
  lemma ScopeFollows(observations: seq<Observation>, digests: map<string, string>, oracle: Oracle, s: Settings,
                     scope: Scope, deadline: real, run0: Run)
    returns (n: nat)
    requires run0.calls == |run0.log|
    ensures var (attempt, run) := ScopeRun(observations, digests, oracle, s, scope, deadline, run0);
            && Requests(oracle, observations, s, deadline, run0, n, run.log)
            && Answers(oracle, digests, observations, scope, deadline, |run0.log|, n, attempt, run)
  {
    var begin := run0.(scope := scope);
    var (first, run1) := Once(observations, digests, oracle, deadline,
                              PrimaryTimeout(s, PortfolioReserved(observations)), begin);
    var (attempt, run) := Requested(observations, digests, oracle, s, deadline, begin);
    n := |run.log|;
    assert Requests(oracle, observations, s, deadline, run0, n, run.log);
    CorrectionFollows(oracle, digests, observations, s, scope, deadline, |run0.log|, attempt, run);
  }

  /******* How long a call may take *******/

  // A timeout is 45 seconds at least, and at most what the settings say, or the least its kind of call
  // gets; a speculative call gets no more than a minute.
  predicate IsTimeout(t: int, s: Settings, speculative: bool) {
    && 45 <= t <= (if speculative then 60 else if s.cpuLongCall then 300 else 180)
    && t <= Max(if speculative then 45 else 90, s.timeoutSeconds)
  }

  // The call was granted such a timeout, or all whole seconds left of its deadline if those are fewer.
  ghost predicate Grants(c: Call, s: Settings, speculative: bool) {
    var left := (c.deadline - c.at).Floor;
    left >= 5 && exists t :: IsTimeout(t, s, speculative) && c.granted == Min(t, left)
  }

  ghost predicate AllGranted(s: Settings, speculative: bool, before: Run, after: Run) {
    before.log <= after.log && forall c :: c in NewCalls(before, after) ==> Grants(c, s, speculative)
  }

  lemma OnceGrants(observations: seq<Observation>, digests: map<string, string>, oracle: Oracle, deadline: real,
                   t: int, run: Run, s: Settings, speculative: bool)
    requires IsTimeout(t, s, speculative)
    ensures AllGranted(s, speculative, run, Once(observations, digests, oracle, deadline, t, run).1)
  {
    var after := Once(observations, digests, oracle, deadline, t, run).1;
    if deadline - run.clock >= 5.0 {
      assert NewCalls(run, after) == [after.log[|run.log|]];
    }
  }

  lemma GrantedLater(s: Settings, speculative: bool, before: Run, between: Run, after: Run)
    requires AllGranted(s, speculative, before, between) && AllGranted(s, speculative, between, after)
    ensures AllGranted(s, speculative, before, after)
  {
    assert NewCalls(before, after) == NewCalls(before, between) + NewCalls(between, after);
  }

  lemma {:induction false} ChainGrants(current: seq<Observation>, reason: Reason, unit: Option<string>, k: nat,
      last: nat, digests: map<string, string>, oracle: Oracle, deadline: real, t: int, run: Run, s: Settings,
      speculative: bool)
    requires IsTimeout(t, s, speculative)
    ensures AllGranted(s, speculative, run,
                       Chain(OnceIn(digests, oracle, deadline, t), current, reason, unit, k, last, run).1)
    decreases last - k
  {
    if k < last {
      var retry := AfterRejection(current, reason, unit);
      OnceGrants(retry, digests, oracle, deadline, t, run, s, speculative);
      var (attempt, between) := Once(retry, digests, oracle, deadline, t, run);
      if attempt.Refused? {
        ChainGrants(retry, attempt.reason, attempt.unit, k + 1, last, digests, oracle, deadline, t, between, s,
                    speculative);
        var after := Chain(OnceIn(digests, oracle, deadline, t), retry, attempt.reason, attempt.unit, k + 1, last,
                           between).1;
        GrantedLater(s, speculative, run, between, after);
      }
    }
  }

  lemma RequestGrants(observations: seq<Observation>, digests: map<string, string>, oracle: Oracle, s: Settings,
                      deadline: real, run: Run)
    ensures AllGranted(s, PortfolioReserved(observations), run,
                       Requested(observations, digests, oracle, s, deadline, run).1)
  {
    var speculative := PortfolioReserved(observations);
    var primary := PrimaryTimeout(s, speculative);
    OnceGrants(observations, digests, oracle, deadline, primary, run, s, speculative);
    var (first, run1) := Once(observations, digests, oracle, deadline, primary, run);
    if RetriesTransport(first, observations, s) {
      var timeout := RetryTimeout(first, observations, s);
      OnceGrants(observations, digests, oracle, deadline, timeout, run1, s, speculative);
      GrantedLater(s, speculative, run, run1, Once(observations, digests, oracle, deadline, timeout, run1).1);
    }
  }

  // Every call of a scope is granted a timeout of its kind, or what is left if that is less.
  lemma ScopeGrants(observations: seq<Observation>, digests: map<string, string>, oracle: Oracle, s: Settings,
                    scope: Scope, deadline: real, run0: Run)
    ensures AllGranted(s, PortfolioReserved(observations), run0,
                       ScopeRun(observations, digests, oracle, s, scope, deadline, run0).1)
  {
    var speculative, begin := PortfolioReserved(observations), run0.(scope := scope);
    RequestGrants(observations, digests, oracle, s, deadline, begin);
    var (attempt, run) := Requested(observations, digests, oracle, s, deadline, begin);
    if attempt.Refused? {
      var timeout := ValidationTimeout(s, scope, speculative);
      ChainGrants(observations, attempt.reason, attempt.unit, 0, MaxCorrections(scope, speculative), digests, oracle,
                  deadline, timeout, run, s, speculative);
      GrantedLater(s, speculative, begin, run,
                   Corrected(attempt, run, observations, digests, oracle, s, scope, deadline).1);
    }
  }
}
