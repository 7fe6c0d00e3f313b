/**
 The portfolio loop of one provider: up to four hypotheses, each running its scopes
 under its own deadline, with selected candidates reserved and failed ones fed back.
 */
module ForcePortfolio {
  import opened Basics
  import opened ForceMemory
  import opened ForceObservations
  import opened ForceScope

  /******* What the adapter hands over *******/

  // The optional observations of a request: one per kind at most.
  datatype Assembly = Assembly(hasCoverage: bool, hasTargeted: bool, hasSharded: bool, hasStructure: bool,
                               hasWaf: bool, hasRefined: bool, memory: seq<MemoryRow>,
                               hasReferences: bool, hasPreflight: bool)

  function Plain(source: Source): Observation {
    Observation(NoStage, source, NoReason, None, false, Opaque(""))
  }

  function Add(rows: seq<Observation>, present: bool, o: Observation): seq<Observation> {
    if present then rows + [o] else rows
  }

  function LiveRows(a: Assembly): seq<Observation> {
    Add(Add([], a.hasPreflight, Plain(LivePreflight).(stage := OtherStage)),
        a.hasReferences, Plain(PublicUpstream).(stage := OtherStage))
  }

  function CensusRows(a: Assembly): seq<Observation> {
    Add(Add(Add(Add(LiveRows(a), true, Plain(CensusCurrent)), a.hasCoverage, Plain(RuntimeCoverage)),
            a.hasTargeted, Plain(TargetedRegression)), a.hasSharded, Plain(CensusSharded))
  }

  function ContextRows(a: Assembly): seq<Observation> {
    var current := Add(Add(Add(CensusRows(a), a.hasStructure, Plain(ProviderStructure)), a.hasWaf,
                           Plain(WafDifferential)),
                       a.hasRefined, Plain(RefinedBatch));
    Add(Add(current, true, Plain(RepairExperience)), true, Plain(RepairMemory))
  }

  // `request_from_checkout`, with the live observations put in front by the batch.
  function Assembled(a: Assembly): seq<Observation> {
    Add(ContextRows(a), a.memory != [], MemoryObservation(a.memory))
  }

  // No feedback and no reservation yet, plain guard rows, and room for the reservation
  // among the twelve rows of evidence a failed candidate carries over.
  ghost predicate Fresh(observations: seq<Observation>) {
    && PlainGuards(observations)
    && (forall o :: o in observations ==> !IsFeedback(o) && o.source != PortfolioReservation)
    && |Evidence(observations)| <= 11
  }

  ghost predicate Unguarded(rows: seq<Observation>, n: nat) {
    (forall o :: o in rows ==> !IsFeedback(o) && !IsGuard(o)) && |Evidence(rows)| <= n
  }

  lemma AddPlain(rows: seq<Observation>, n: nat, present: bool, o: Observation)
    requires Unguarded(rows, n) && !IsFeedback(o) && !IsGuard(o)
    ensures Unguarded(Add(rows, present, o), if IsCarried(o) then n + 1 else n)
  {
  }

  lemma CensusRowsAreFew(a: Assembly)
    ensures Unguarded(CensusRows(a), 3)
  {
    var preflight, references := Plain(LivePreflight).(stage := OtherStage),
        Plain(PublicUpstream).(stage := OtherStage);
    AddPlain([], 0, a.hasPreflight, preflight);
    AddPlain(Add([], a.hasPreflight, preflight), 0, a.hasReferences, references);
    var r1 := Add(LiveRows(a), true, Plain(CensusCurrent));
    AddPlain(LiveRows(a), 0, true, Plain(CensusCurrent));
    var r2 := Add(r1, a.hasCoverage, Plain(RuntimeCoverage));
    AddPlain(r1, 1, a.hasCoverage, Plain(RuntimeCoverage));
    AddPlain(r2, 1, a.hasTargeted, Plain(TargetedRegression));
    AddPlain(Add(r2, a.hasTargeted, Plain(TargetedRegression)), 2, a.hasSharded, Plain(CensusSharded));
  }

  lemma ContextAddsNoEvidence(a: Assembly)
    requires Unguarded(CensusRows(a), 3)
    ensures Unguarded(ContextRows(a), 3)
  {
    var r1 := Add(CensusRows(a), a.hasStructure, Plain(ProviderStructure));
    AddPlain(CensusRows(a), 3, a.hasStructure, Plain(ProviderStructure));
    var r2 := Add(r1, a.hasWaf, Plain(WafDifferential));
    AddPlain(r1, 3, a.hasWaf, Plain(WafDifferential));
    var r3 := Add(r2, a.hasRefined, Plain(RefinedBatch));
    AddPlain(r2, 3, a.hasRefined, Plain(RefinedBatch));
    AddPlain(r3, 3, true, Plain(RepairExperience));
    AddPlain(Add(r3, true, Plain(RepairExperience)), 3, true, Plain(RepairMemory));
  }

  // What the adapter hands over is fresh, with four rows of evidence at most.
  lemma AssembledIsFresh(a: Assembly)
    ensures Fresh(Assembled(a)) && |Evidence(Assembled(a))| <= 4
  {
    CensusRowsAreFew(a);
    ContextAddsNoEvidence(a);
    AddMemory(ContextRows(a), 3, a.memory);
  }

  lemma AddMemory(rows: seq<Observation>, n: nat, memory: seq<MemoryRow>)
    requires Unguarded(rows, n) && n < 11
    ensures Fresh(Add(rows, memory != [], MemoryObservation(memory)))
    ensures |Evidence(Add(rows, memory != [], MemoryObservation(memory)))| <= n + 1
  {
  }

  /******* The invariant of the loop *******/

  // After k candidates: the guard still remembers every failure of the start and every
  // planned candidate, and the planned candidates it applies to are new and distinct.
  ghost predicate Safe(initial: seq<Observation>, digests: map<string, string>,
                       observations: seq<Observation>, planned: seq<seq<Mutation>>, k: nat)
  {
    && PlainGuards(observations) && BoundedFeedback(observations, 1)
    && |ReservedRows(observations)| <= k
    && |Evidence(observations)| <= 11 + (if ReservedRows(observations) == [] then 0 else 1)
    && (forall o :: o in initial && o.source == SandboxMemory ==> o in observations)
    && (forall m :: m in planned && m != [] ==> ReservationRow(m) in ReservedRows(observations))
    && NewAndDistinct(initial, digests, planned)
  }

  // The lists that must be new: Bloc edits, and patches of files with known digests.
  ghost predicate Watched(mutations: seq<Mutation>, digests: map<string, string>) {
    BlocList(mutations) || exists s :: PatchList(mutations, digests, s)
  }

  ghost predicate NewAndDistinct(initial: seq<Observation>, digests: map<string, string>, planned: seq<seq<Mutation>>) {
    && (forall i :: 0 <= i < |planned| && Watched(planned[i], digests) ==> !MemoryBlocks(initial, digests, planned[i]))
    && (forall i, j :: 0 <= i < j < |planned| && Watched(planned[j], digests) ==> planned[i] != planned[j])
  }

  lemma FreshIsSafe(initial: seq<Observation>, digests: map<string, string>)
    requires Fresh(initial)
    ensures Safe(initial, digests, initial, [], 0)
  {
    KeepNone(initial, IsFeedback);
  }

  lemma {:induction false} KeepAfterUpdate(rows: seq<Observation>, i: nat, o: Observation, which: Observation -> bool)
    requires i < |rows| && which(o) == which(rows[i])
    ensures |Keep(rows[i := o], which)| == |Keep(rows, which)|
    ensures !which(o) ==> Keep(rows[i := o], which) == Keep(rows, which)
  {
    var updated, last := rows[i := o], |rows| - 1;
    if i < last {
      assert updated[..last] == rows[..last][i := o];
      KeepAfterUpdate(rows[..last], i, o, which);
    } else {
      assert updated[..last] == rows[..last];
    }
  }

  lemma ReservingKeepsBounds(observations: seq<Observation>, mutations: seq<Mutation>)
    requires PlainGuards(observations) && BoundedFeedback(observations, 1)
    ensures BoundedFeedback(Reserved(observations, mutations), 1)
    ensures |Evidence(Reserved(observations, mutations))|
            <= |Evidence(observations)| + if ReservationIndex(observations, 0) == -1 then 1 else 0
  {
    var i, after := ReservationIndex(observations, 0), Reserved(observations, mutations);
    if i == -1 {
      assert after[..|observations|] == observations;
    } else {
      assert observations[i] in observations;
      KeepAfterUpdate(observations, i, after[i], IsFeedback);
      KeepAfterUpdate(observations, i, after[i], IsCarried);
    }
    assert forall o :: o in after ==> o in observations || (o.source == PortfolioReservation && !IsFeedback(o));
  }

  // A selected candidate that the guard let through stays the only one of its kind.
  lemma SelectingKeepsSafe(initial: seq<Observation>, digests: map<string, string>, observations: seq<Observation>,
                           planned: seq<seq<Mutation>>, k: nat, mutations: seq<Mutation>)
    requires Fresh(initial) && Safe(initial, digests, observations, planned, k) && k < 4
    requires !MemoryBlocks(observations, digests, mutations)
    ensures Safe(initial, digests, Reserved(observations, mutations), planned + [mutations], k + 1)
  {
    ReservingKeepsGuards(observations, mutations);
    ReservingKeepsBounds(observations, mutations);
    GuardedIsBlocOrPatch(mutations, digests);
    if Watched(mutations, digests) {
      if MemoryBlocks(initial, digests, mutations) {
        StartStillBlocks(initial, observations, digests, mutations);
      }
      if mutations in planned {
        ReservationBlocks(observations, digests, mutations);
      }
    }
    OneMoreIsNew(initial, digests, planned, mutations);
  }

  lemma OneMoreIsNew(initial: seq<Observation>, digests: map<string, string>, planned: seq<seq<Mutation>>,
                     mutations: seq<Mutation>)
    requires NewAndDistinct(initial, digests, planned)
    requires Watched(mutations, digests) ==> !MemoryBlocks(initial, digests, mutations) && mutations !in planned
    ensures NewAndDistinct(initial, digests, planned + [mutations])
  {
  }

  lemma StartStillBlocks(initial: seq<Observation>, observations: seq<Observation>, digests: map<string, string>,
                         mutations: seq<Mutation>)
    requires Fresh(initial) && (forall o :: o in initial && o.source == SandboxMemory ==> o in observations)
    requires MemoryBlocks(initial, digests, mutations)
    ensures MemoryBlocks(observations, digests, mutations)
  {
  }

  lemma CarryingKeepsBounds(observations: seq<Observation>, reason: Reason)
    requires |Evidence(observations)| <= 12
    ensures BoundedFeedback(Carried(observations, reason), 1)
    ensures Evidence(Carried(observations, reason)) == Evidence(observations)
  {
    KeepKeeps(observations, IsCarried);
    var kept, after := Evidence(observations), Carried(observations, reason);
    assert after == [after[0]] + kept;
    KeepBehindFeedback(after[0], kept, IsCarried);
    KeepBehindFeedback(after[0], kept, IsFeedback);
    KeepOfKept(kept, IsCarried);
    KeepNone(kept, IsFeedback);
  }

  lemma KeepBehindFeedback(o: Observation, rows: seq<Observation>, which: Observation -> bool)
    ensures Keep([o] + rows, which) == (if which(o) then [o] else []) + Keep(rows, which)
  {
    KeepOfConcat([o], rows, which);
    assert [o][..0] == [];
  }

  lemma CarryingKeepsSafe(initial: seq<Observation>, digests: map<string, string>, observations: seq<Observation>,
                          planned: seq<seq<Mutation>>, k: nat, reason: Reason)
    requires Safe(initial, digests, observations, planned, k)
    ensures Safe(initial, digests, Carried(observations, reason), planned, k)
  {
    CarryingKeepsGuards(observations, reason);
    CarryingKeepsReservation(observations, reason);
    CarryingKeepsBounds(observations, reason);
  }

  // A first candidate without any mutation is planned as a row of its own.
  lemma AbstainingKeepsSafe(initial: seq<Observation>, digests: map<string, string>, observations: seq<Observation>,
                            k: nat)
    requires Safe(initial, digests, observations, [], k)
    ensures Safe(initial, digests, observations, [[]], k)
  {
  }

  /******* Deadlines *******/

  function RealMin(a: real, b: real): real { if a < b then a else b }

  function RealMax(a: real, b: real): real { if a < b then b else a }

  // The share of the provider's remaining time one candidate gets.
  function CandidateBudget(remaining: real, candidatesLeft: int, anyPlanned: bool, longCall: bool): real {
    if remaining <= 0.0 then 0.0
    else if !anyPlanned then
      RealMin(RealMin(if longCall then 330.0 else 180.0, remaining),
              RealMax(90.0, remaining - Max(0, candidatesLeft - 1) as real * 45.0))
    else if candidatesLeft <= 0 then remaining
    else remaining / candidatesLeft as real
  }

  function CandidateDeadline(now: real, forceDeadline: real, candidatesLeft: int, anyPlanned: bool,
                             longCall: bool): real
  {
    RealMin(forceDeadline,
            now + RealMax(5.0, CandidateBudget(RealMax(0.0, forceDeadline - now), candidatesLeft, anyPlanned,
                                               longCall)))
  }

  // With nothing planned a candidate gets what the later ones' 45 seconds each leave, but 90 at least
  // and its cap at most; with something planned the time is shared evenly.
  lemma BudgetIsFair(remaining: real, left: nat, anyPlanned: bool, longCall: bool)
    requires left >= 1 && remaining >= 0.0
    ensures var budget := CandidateBudget(remaining, left, anyPlanned, longCall);
            var cap := if longCall then 330.0 else 180.0;
            && 0.0 <= budget <= remaining
            && (anyPlanned ==> budget * left as real == remaining)
            && (!anyPlanned ==> budget <= cap && budget >= RealMin(90.0, remaining))
            && (!anyPlanned && 90.0 < budget < cap && budget < remaining ==>
                  remaining - budget == (left - 1) as real * 45.0)
            && (!anyPlanned && budget < cap ==>
                  budget == remaining || remaining - budget <= (left - 1) as real * 45.0)
  {
    if anyPlanned { SharesAddUp(remaining, left); }
  }

  lemma SharesAddUp(remaining: real, left: nat)
    requires left >= 1 && remaining >= 0.0
    ensures remaining / left as real * left as real == remaining && 0.0 <= remaining / left as real <= remaining
  {
    var share, more := remaining / left as real, left as real - 1.0;
    assert share * left as real == share + share * more && share * more >= 0.0;
  }

  // Every call was granted no more than its candidate had left, and no candidate's
  // deadline lies behind the provider's.
  ghost predicate NestedDeadlines(log: seq<Call>, forceDeadline: real) {
    forall i :: 0 <= i < |log| ==> WithinDeadline(log[i], log[i].deadline) && log[i].deadline <= forceDeadline
  }

  // Calls that end within what they were granted.
  ghost predicate HonoursTimeouts(oracle: Oracle, log: seq<Call>) {
    forall i :: 0 <= i < |log| ==> oracle.seconds(i) <= log[i].granted as real
  }

  lemma ScopeNests(before: Run, after: Run, observations: seq<Observation>, deadline: real, forceDeadline: real)
    requires before.log <= after.log && NestedDeadlines(before.log, forceDeadline) && deadline <= forceDeadline
    requires OrderlyCalls(observations, NewCalls(before, after), deadline)
    ensures NestedDeadlines(after.log, forceDeadline)
  {
  }

  /******* The loop *******/

  datatype Tried = Tried(selected: seq<Mutation>, abstained: bool, reason: Reason)

  // What a provider's loop runs with.
  datatype Plan = Plan(digests: map<string, string>, oracle: Oracle, settings: Settings, scopes: seq<Scope>,
                       maxHypotheses: int, begin: real, forceDeadline: real)
  {
    function DeadlineOf(k: int, anyPlanned: bool, now: real): real {
      CandidateDeadline(now, forceDeadline, maxHypotheses - k + 1, anyPlanned,
                        settings.cpuLongCall && maxHypotheses == 1)
    }
  }

  // What an attempt leaves of the candidate: a selection, an abstention, or the latest reason.
  function Noted(tried: Tried, attempt: Attempt): Tried {
    match attempt
    case Admitted(mutations, _) =>
      if mutations != [] then tried.(selected := mutations) else tried.(abstained := true)
    case Refused(reason, _) => tried.(reason := reason)
    case Failed(_, _) => tried.(reason := OtherReason("transport"))
  }

  // One candidate: its scopes in order until one yields an executable mutation or the
  // candidate's time is up.
  function TryFrom(scopes: seq<Scope>, ask: (Scope, Run) -> (Attempt, Run), deadline: real, i: nat, tried: Tried,
                   run: Run): (Tried, Run)
    requires i <= |scopes|
    decreases |scopes| - i
  {
    if i == |scopes| || tried.selected != [] then (tried, run)
    else if run.clock >= deadline then (tried.(reason := OtherReason("timeouterror")), run)
    else
      var (attempt, after) := ask(scopes[i], run);
      TryFrom(scopes, ask, deadline, i + 1, Noted(tried, attempt), after)
  }

  function Asking(p: Plan, observations: seq<Observation>, deadline: real): (Scope, Run) -> (Attempt, Run) {
    (scope: Scope, run: Run) => ScopeRun(observations, p.digests, p.oracle, p.settings, scope, deadline, run)
  }

  const NothingTried := Tried([], false, OtherReason("abstain"))

  function TryAll(p: Plan, observations: seq<Observation>, deadline: real, run: Run): (Tried, Run) {
    TryFrom(p.scopes, Asking(p, observations, deadline), deadline, 0, NothingTried, run)
  }

  // Every scope that is asked for keeps the invariant.
  ghost predicate EachTry(scopes: seq<Scope>, ask: (Scope, Run) -> (Attempt, Run), deadline: real,
                          keeps: (nat, Tried, Run) -> bool)
  {
    forall j: nat, t: Tried, r: Run {:trigger keeps(j, t, r)} ::
      j < |scopes| && keeps(j, t, r) && t.selected == [] && r.clock < deadline ==>
        keeps(j + 1, Noted(t, ask(scopes[j], r).0), ask(scopes[j], r).1)
  }

  // What every scope keeps holds at the end, of which only the reason may say that time was up.
  lemma {:induction false} TryKeeps(scopes: seq<Scope>, ask: (Scope, Run) -> (Attempt, Run), deadline: real,
                                    keeps: (nat, Tried, Run) -> bool, i: nat, tried: Tried, run: Run)
    returns (n: nat, last: Tried)
    requires i <= |scopes| && keeps(i, tried, run) && EachTry(scopes, ask, deadline, keeps)
    ensures var (tried', after) := TryFrom(scopes, ask, deadline, i, tried, run);
            && n <= |scopes| && keeps(n, last, after)
            && (if n < |scopes| && last.selected == []
                then after.clock >= deadline && tried' == last.(reason := OtherReason("timeouterror"))
                else tried' == last)
    decreases |scopes| - i
  {
    n, last := i, tried;
    if i < |scopes| && tried.selected == [] && run.clock < deadline {
      var (attempt, after) := ask(scopes[i], run);
      n, last := TryKeeps(scopes, ask, deadline, keeps, i + 1, Noted(tried, attempt), after);
    }
  }

  method TryScope(p: Plan, observations: seq<Observation>, deadline: real, scope: Scope, tried: Tried, run: Run)
    returns (next: Tried, after: Run)
    ensures var called := Asking(p, observations, deadline)(scope, run);
            next == Noted(tried, called.0) && after == called.1
  {
    var attempt;
    attempt, after := RunForceScope(observations, p.digests, p.oracle, p.settings, scope, deadline, run);
    match attempt
    case Admitted(mutations, _) =>
      next := if mutations != [] then tried.(selected := mutations) else tried.(abstained := true);
    case Refused(reason, _) => next := tried.(reason := reason);
    case Failed(_, _) => next := tried.(reason := OtherReason("transport"));
  }

  method TryScopes(p: Plan, observations: seq<Observation>, deadline: real, run0: Run) returns (tried: Tried, run: Run)
    ensures (tried, run) == TryAll(p, observations, deadline, run0)
  {
    ghost var ask := Asking(p, observations, deadline);
    tried, run := NothingTried, run0;
    for i := 0 to |p.scopes|
      invariant tried.selected == []
      invariant TryFrom(p.scopes, ask, deadline, i, tried, run)
                == TryFrom(p.scopes, ask, deadline, 0, NothingTried, run0)
    {
      if run.clock >= deadline {
        tried := tried.(reason := OtherReason("timeouterror"));
        return;
      }
      tried, run := TryScope(p, observations, deadline, p.scopes[i], tried, run);
      if tried.selected != [] {
        return;
      }
    }
  }

  // The loop's state between two candidates, and whether it stops there.
  datatype State = State(observations: seq<Observation>, planned: seq<seq<Mutation>>, run: Run, done: bool)

  // What a candidate adds to the plan.
  function WithCandidate(planned: seq<seq<Mutation>>, tried: Tried): seq<seq<Mutation>> {
    if tried.selected != [] then planned + [tried.selected]
    else if tried.abstained && planned == [] then [[]] else planned
  }

  // The state behind candidate k: a selection is reserved, anything else is fed back, while there is
  // a next candidate and time for it.
  function Next(p: Plan, k: nat, st: State, tried: Tried, run: Run): State {
    var planned := WithCandidate(st.planned, tried);
    if tried.selected != [] then State(Reserved(st.observations, tried.selected), planned, run, false)
    else if k < p.maxHypotheses && run.clock < p.forceDeadline then
      State(Carried(st.observations, tried.reason), planned, run, false)
    else State(st.observations, planned, run, true)
  }

  // Candidate k.
  function Candidate(p: Plan, k: nat, st: State): State {
    var (tried, run) := TryAll(p, st.observations, p.DeadlineOf(k, st.planned != [], st.run.clock),
                               st.run.(candidate := k));
    Next(p, k, st, tried, run)
  }

  function StepOf(p: Plan): (nat, State) -> State {
    (k: nat, st: State) => Candidate(p, k, st)
  }

  // Candidates k to `last`, as long as none stops the loop.
  function CandidatesFrom(step: (nat, State) -> State, last: int, k: nat, st: State): State
    decreases last - k
  {
    if k > last || st.done then st else CandidatesFrom(step, last, k + 1, step(k, st))
  }

  function Portfolio(p: Plan, initial: seq<Observation>): State {
    CandidatesFrom(StepOf(p), p.maxHypotheses, 1, Start(initial, p.begin))
  }

  function Start(initial: seq<Observation>, begin: real): State {
    State(initial, [], Run(begin, 0, [], 0, OtherScope), false)
  }

  function PlanFor(digests: map<string, string>, oracle: Oracle, s: Settings, scopes: seq<Scope>,
                   requested: int, budgetSeconds: int, begin: real): Plan
  {
    Plan(digests, oracle, s, scopes, Max(1, Min(requested, 4)), begin, begin + Max(60, budgetSeconds) as real)
  }

  method RunCandidate(p: Plan, k: nat, st: State) returns (next: State)
    ensures next == StepOf(p)(k, st)
  {
    var tried, run := TryScopes(p, st.observations, p.DeadlineOf(k, st.planned != [], st.run.clock),
                                st.run.(candidate := k));
    if tried.selected != [] {
      return State(Reserved(st.observations, tried.selected), st.planned + [tried.selected], run, false);
    }
    var planned := st.planned;
    if tried.abstained && planned == [] {
      planned := [[]];
    }
    if k < p.maxHypotheses && run.clock < p.forceDeadline {
      return State(Carried(st.observations, tried.reason), planned, run, false);
    }
    return State(st.observations, planned, run, true);
  }

  lemma OneMoreCandidate(step: (nat, State) -> State, last: int, k: nat, st: State, next: State)
    requires k <= last && !st.done && next == step(k, st)
    ensures CandidatesFrom(step, last, k, st) == CandidatesFrom(step, last, k + 1, next)
  {
  }

  method RunCandidates(p: Plan, initial: seq<Observation>) returns (st: State)
    ensures st == Portfolio(p, initial)
  {
    st := Start(initial, p.begin);
    var k := 1;
    while k <= p.maxHypotheses && !st.done
      invariant 1 <= k
      invariant CandidatesFrom(StepOf(p), p.maxHypotheses, k, st) == Portfolio(p, initial)
      decreases p.maxHypotheses - k
    {
      var next := RunCandidate(p, k, st);
      OneMoreCandidate(StepOf(p), p.maxHypotheses, k, st, next);
      st, k := next, k + 1;
    }
  }

  // The candidates that change something.
  function Executable(planned: seq<seq<Mutation>>): seq<seq<Mutation>> {
    if planned == [] then []
    else Executable(planned[..|planned| - 1]) + if planned[|planned| - 1] != [] then [planned[|planned| - 1]] else []
  }

  // What the loop hands on: candidates that change something, or else an abstention, if there was one.
  function HandedOn(planned: seq<seq<Mutation>>): seq<seq<Mutation>> {
    if Executable(planned) != [] then Executable(planned) else planned
  }

  method PlanPortfolio(initial: seq<Observation>, digests: map<string, string>, oracle: Oracle, s: Settings,
                       scopes: seq<Scope>, requested: int, budgetSeconds: int, begin: real)
    returns (planned: seq<seq<Mutation>>, run: Run)
    ensures var end := Portfolio(PlanFor(digests, oracle, s, scopes, requested, budgetSeconds, begin), initial);
            planned == HandedOn(end.planned) && run == end.run
  {
    var end := RunCandidates(PlanFor(digests, oracle, s, scopes, requested, budgetSeconds, begin), initial);
    return HandedOn(end.planned), end.run;
  }

  /******* Safety over every run *******/

  ghost predicate Timely(p: Plan, run: Run) {
    NestedDeadlines(run.log, p.forceDeadline) && Clocked(p.oracle, p.begin, run)
  }

  // The run so far is timely, and what is selected is no failure known to the observations.
  ghost predicate WellTried(p: Plan, observations: seq<Observation>, tried: Tried, run: Run) {
    Timely(p, run) && (tried.selected != [] ==> !MemoryBlocks(observations, p.digests, tried.selected))
  }

  lemma ScopeIsTimely(p: Plan, observations: seq<Observation>, deadline: real, scope: Scope, tried: Tried, run: Run)
    requires PlainGuards(observations) && BoundedFeedback(observations, 1)
    requires deadline <= p.forceDeadline && WellTried(p, observations, tried, run)
    ensures var (attempt, after) := ScopeRun(observations, p.digests, p.oracle, p.settings, scope, deadline, run);
            WellTried(p, observations, Noted(tried, attempt), after)
  {
    ScopeIsOrderly(observations, p.digests, p.oracle, p.settings, scope, deadline, run);
    ScopeIsClocked(p.begin, observations, p.digests, p.oracle, p.settings, scope, deadline, run);
    var (attempt, after) := ScopeRun(observations, p.digests, p.oracle, p.settings, scope, deadline, run);
    ScopeNests(run, after, observations, deadline, p.forceDeadline);
  }

  ghost function TimelyOf(p: Plan, observations: seq<Observation>): (nat, Tried, Run) -> bool {
    (n: nat, tried: Tried, run: Run) => WellTried(p, observations, tried, run)
  }

  lemma AskingIsTimely(p: Plan, observations: seq<Observation>, deadline: real, j: nat, tried: Tried, run: Run)
    requires PlainGuards(observations) && BoundedFeedback(observations, 1) && deadline <= p.forceDeadline
    requires j < |p.scopes| && TimelyOf(p, observations)(j, tried, run)
    ensures var (attempt, after) := Asking(p, observations, deadline)(p.scopes[j], run);
            TimelyOf(p, observations)(j + 1, Noted(tried, attempt), after)
  {
    ScopeIsTimely(p, observations, deadline, p.scopes[j], tried, run);
  }

  lemma EachIsTimely(p: Plan, observations: seq<Observation>, deadline: real)
    requires PlainGuards(observations) && BoundedFeedback(observations, 1) && deadline <= p.forceDeadline
    ensures EachTry(p.scopes, Asking(p, observations, deadline), deadline, TimelyOf(p, observations))
  {
    var keeps, ask := TimelyOf(p, observations), Asking(p, observations, deadline);
    forall j: nat, t: Tried, r: Run {:trigger keeps(j, t, r)} | j < |p.scopes| && keeps(j, t, r)
      ensures keeps(j + 1, Noted(t, ask(p.scopes[j], r).0), ask(p.scopes[j], r).1)
    {
      AskingIsTimely(p, observations, deadline, j, t, r);
    }
  }

  lemma ReasonDoesNotMatter(p: Plan, observations: seq<Observation>, last: Tried, tried: Tried, run: Run)
    requires WellTried(p, observations, last, run) && tried.selected == last.selected
    ensures WellTried(p, observations, tried, run)
  {
  }

  lemma TryingIsTimely(p: Plan, observations: seq<Observation>, deadline: real, run: Run)
    requires PlainGuards(observations) && BoundedFeedback(observations, 1) && deadline <= p.forceDeadline
    requires Timely(p, run)
    ensures var (tried, after) := TryAll(p, observations, deadline, run); WellTried(p, observations, tried, after)
  {
    EachIsTimely(p, observations, deadline);
    var n, last := TryKeeps(p.scopes, Asking(p, observations, deadline), deadline, TimelyOf(p, observations), 0,
                            NothingTried, run);
    var (tried, after) := TryAll(p, observations, deadline, run);
    ReasonDoesNotMatter(p, observations, last, tried, after);
  }

  ghost predicate Sound(p: Plan, initial: seq<Observation>, k: nat, st: State) {
    Safe(initial, p.digests, st.observations, st.planned, k) && |st.planned| <= k && Timely(p, st.run)
  }

  lemma SoundLater(p: Plan, initial: seq<Observation>, k: nat, n: nat, st: State)
    requires Sound(p, initial, k, st) && k <= n
    ensures Sound(p, initial, n, st)
  {
  }

  lemma NextStaysSound(p: Plan, initial: seq<Observation>, k: nat, st: State, tried: Tried, run: Run)
    requires 1 <= k <= 4 && Fresh(initial) && Sound(p, initial, k - 1, st)
    requires WellTried(p, st.observations, tried, run)
    ensures Sound(p, initial, k, Next(p, k, st, tried, run))
  {
    if tried.selected != [] {
      SelectingKeepsSafe(initial, p.digests, st.observations, st.planned, k - 1, tried.selected);
    } else {
      if st.planned == [] {
        AbstainingKeepsSafe(initial, p.digests, st.observations, k - 1);
      }
      CarryingKeepsSafe(initial, p.digests, st.observations, WithCandidate(st.planned, tried), k - 1, tried.reason);
    }
  }

  lemma CandidateStaysSound(p: Plan, initial: seq<Observation>, k: nat, st: State)
    requires 1 <= k <= 4 && Fresh(initial) && Sound(p, initial, k - 1, st)
    ensures Sound(p, initial, k, Candidate(p, k, st))
  {
    var deadline, start := p.DeadlineOf(k, st.planned != [], st.run.clock), st.run.(candidate := k);
    TryingIsTimely(p, st.observations, deadline, start);
    var (tried, run) := TryAll(p, st.observations, deadline, start);
    NextStaysSound(p, initial, k, st, tried, run);
  }

  // Every candidate that is run keeps the invariant.
  ghost predicate EachKeeps(step: (nat, State) -> State, inv: (nat, State) -> bool, last: nat) {
    forall j: nat, s {:trigger inv(j, step(j, s))} ::
      1 <= j <= last && inv(j - 1, s) && !s.done ==> inv(j, step(j, s))
  }

  // The invariant of a loop that ends is that of all its candidates.
  ghost predicate EndKeeps(inv: (nat, State) -> bool, last: nat) {
    forall j: nat, s {:trigger inv(j, s)} :: j <= last && inv(j, s) && (s.done || j == last) ==> inv(last, s)
  }

  // What every candidate keeps, the loop keeps.
  lemma {:induction false} LoopKeeps(step: (nat, State) -> State, inv: (nat, State) -> bool, last: nat, k: nat,
                                     st: State)
    requires 1 <= k <= last + 1 && inv(k - 1, st) && EachKeeps(step, inv, last) && EndKeeps(inv, last)
    ensures inv(last, CandidatesFrom(step, last, k, st))
    decreases last - k
  {
    if k <= last && !st.done {
      assert inv(k, step(k, st));
      LoopKeeps(step, inv, last, k + 1, step(k, st));
    }
  }

  ghost function SoundnessOf(p: Plan, initial: seq<Observation>): (nat, State) -> bool {
    (k: nat, st: State) => Sound(p, initial, k, st)
  }

  lemma StepStaysSound(p: Plan, initial: seq<Observation>, k: nat, st: State)
    requires 1 <= k <= 4 && Fresh(initial) && SoundnessOf(p, initial)(k - 1, st)
    ensures SoundnessOf(p, initial)(k, StepOf(p)(k, st))
  {
    CandidateStaysSound(p, initial, k, st);
  }

  lemma EachStaysSound(p: Plan, initial: seq<Observation>)
    requires 1 <= p.maxHypotheses <= 4 && Fresh(initial)
    ensures EachKeeps(StepOf(p), SoundnessOf(p, initial), p.maxHypotheses)
  {
    forall j: nat, s | 1 <= j <= p.maxHypotheses && SoundnessOf(p, initial)(j - 1, s)
      ensures SoundnessOf(p, initial)(j, StepOf(p)(j, s))
    {
      StepStaysSound(p, initial, j, s);
    }
  }

  lemma EndStaysSound(p: Plan, initial: seq<Observation>)
    requires 1 <= p.maxHypotheses <= 4
    ensures EndKeeps(SoundnessOf(p, initial), p.maxHypotheses)
  {
    forall j: nat, s | j <= p.maxHypotheses && SoundnessOf(p, initial)(j, s)
      ensures SoundnessOf(p, initial)(p.maxHypotheses, s)
    {
      SoundLater(p, initial, j, p.maxHypotheses, s);
    }
  }

  lemma PortfolioIsSound(p: Plan, initial: seq<Observation>)
    requires 1 <= p.maxHypotheses <= 4 && Fresh(initial)
    ensures Sound(p, initial, p.maxHypotheses, Portfolio(p, initial))
  {
    FreshIsSafe(initial, p.digests);
    EachStaysSound(p, initial);
    EndStaysSound(p, initial);
    assert SoundnessOf(p, initial)(0, Start(initial, p.begin));
    LoopKeeps(StepOf(p), SoundnessOf(p, initial), p.maxHypotheses, 1, Start(initial, p.begin));
  }

  // Main result: whatever the model answers and however long it takes, the planned
  // candidates the guard applies to are pairwise distinct and none is an executed
  // failure known at the start; every call nests in its candidate's and the provider's
  // deadline, so calls that honour their timeouts end within the provider's budget.
  lemma PortfolioIsSafe(a: Assembly, digests: map<string, string>, oracle: Oracle, s: Settings, scopes: seq<Scope>,
                        requested: int, budgetSeconds: int, begin: real)
    ensures var p := PlanFor(digests, oracle, s, scopes, requested, budgetSeconds, begin);
            var end := Portfolio(p, Assembled(a));
            && NewAndDistinct(Assembled(a), digests, end.planned) && |end.planned| <= 4
            && NestedDeadlines(end.run.log, p.forceDeadline)
            && (HonoursTimeouts(oracle, end.run.log) ==> end.run.clock <= p.forceDeadline)
  {
    AssembledIsFresh(a);
    var p := PlanFor(digests, oracle, s, scopes, requested, budgetSeconds, begin);
    PortfolioIsSound(p, Assembled(a));
    var end := Portfolio(p, Assembled(a));
    if HonoursTimeouts(oracle, end.run.log) {
      EndsInTime(p, end.run);
    }
  }

  lemma EndsInTime(p: Plan, run: Run)
    requires Timely(p, run) && p.begin <= p.forceDeadline && HonoursTimeouts(p.oracle, run.log)
    ensures run.clock <= p.forceDeadline
  {
  }
}
