/**
 The advisor experiment generator, its negative memory, and the publisher's sanitizer. A
 fingerprint is the experiment itself: hashing is taken to be injective.
 */
module AdvisorExperiments {
  import opened Basics
  import PythonText

  datatype Role = Search | Detail | Episode | Player | Source | Api | Other

  datatype Route = OwnedOnly | OwnedPlusPeer | OwnedPlusPeerGeneric

  datatype Recipe = CurrentOnly | CurrentPlusProvider | CurrentPlusProviderPeer

  datatype Experiment =
    Experiment(route: Route, recipe: Recipe, roles: seq<Role>, terminalOnly: bool, aliasSearch: bool, salvage: bool,
               mining: bool, session: bool, depth: int, pages: int, embeds: int, passes: int)

  datatype Strategy =
    | OriginReplay | SearchTraversal | TerminalExtractor | CandidateReplay | RequestProgram | ApiDiscovery | NoStrategy

  function Default(strategy: Strategy): Option<Experiment> {
    match strategy
    case OriginReplay =>
      Some(Experiment(OwnedPlusPeer, CurrentPlusProvider, [Api, Detail, Search, Player, Source, Episode, Other],
                      false, false, false, false, true, 3, 14, 12, 3))
    case SearchTraversal =>
      Some(Experiment(OwnedPlusPeer, CurrentPlusProviderPeer, [Search, Detail, Episode, Player, Source, Api, Other],
                      false, false, false, false, false, 5, 24, 24, 4))
    case TerminalExtractor =>
      Some(Experiment(OwnedPlusPeer, CurrentPlusProviderPeer, [Player, Source, Api, Episode, Detail, Other],
                      true, false, true, false, false, 5, 20, 28, 4))
    case CandidateReplay =>
      Some(Experiment(OwnedOnly, CurrentPlusProvider, [Player, Api, Source, Detail, Episode, Other],
                      false, false, false, false, false, 4, 18, 24, 4))
    case RequestProgram =>
      Some(Experiment(OwnedOnly, CurrentPlusProvider, [Api, Source, Player, Episode, Detail, Other],
                      true, false, true, false, false, 5, 18, 28, 5))
    case ApiDiscovery =>
      Some(Experiment(OwnedPlusPeerGeneric, CurrentPlusProviderPeer,
                      [Search, Api, Detail, Player, Source, Episode, Other],
                      false, false, false, true, false, 4, 28, 20, 4))
    case NoStrategy => None
  }

  /******* Candidates *******/

  function Mentions(issue: string, tokens: seq<string>): bool {
    exists k :: 0 <= k < |tokens| && PythonText.Find(issue, tokens[k], 0) >= 0
  }

  function TransportVariant(base: Experiment): Experiment {
    base.(route := OwnedPlusPeerGeneric, recipe := CurrentPlusProviderPeer, session := true, salvage := true,
          depth := Min(6, base.depth + 1), pages := Min(36, base.pages + 6))
  }

  function LookupVariant(base: Experiment): Experiment {
    base.(route := OwnedPlusPeerGeneric, recipe := CurrentPlusProviderPeer, aliasSearch := true, mining := true,
          pages := Min(36, base.pages + 8))
  }

  function TerminalVariant(base: Experiment): Experiment {
    base.(recipe := CurrentPlusProviderPeer, roles := [Player, Source, Api, Episode, Detail, Search, Other],
          terminalOnly := true, salvage := true, mining := true, embeds := Min(36, base.embeds + 6),
          passes := Min(6, base.passes + 1))
  }

  function Targeted(base: Experiment, issue: string): seq<Experiment> {
    (if Mentions(issue, ["waf", "403", "429", "transport", "http_error", "network_exception"])
     then [TransportVariant(base)] else [])
    + (if Mentions(issue, ["zero_result", "search", "lookup", "no proof"]) then [LookupVariant(base)] else [])
    + (if Mentions(issue, ["playable", "terminal", "media", "player", "profile_unavailable"])
       then [TerminalVariant(base)] else [])
  }

  function RouteAt(i: nat): Route {
    if i % 3 == 0 then OwnedOnly else if i % 3 == 1 then OwnedPlusPeer else OwnedPlusPeerGeneric
  }

  function RecipeAt(i: nat): Recipe {
    if i % 3 == 0 then CurrentOnly else if i % 3 == 1 then CurrentPlusProvider else CurrentPlusProviderPeer
  }

  function Rotated(roles: seq<Role>, shift: nat): seq<Role> {
    if roles == [] then [] else roles[shift % |roles|..] + roles[..shift % |roles|]
  }

  function Generic(base: Experiment, ordinal: nat): Experiment {
    Experiment(RouteAt(ordinal), RecipeAt(ordinal / 2), Rotated(base.roles, ordinal),
               base.terminalOnly || ordinal / 16 % 2 == 1, ordinal % 2 == 1, ordinal / 2 % 2 == 1,
               ordinal / 4 % 2 == 1, ordinal / 8 % 2 == 1, 2 + ordinal % 5,
               Min(36, 12 + ordinal * 5 % 25), Min(36, 12 + ordinal * 7 % 25), 1 + ordinal % 6)
  }

  const GENERIC := 24

  function Generics(base: Experiment, n: nat): (rows: seq<Experiment>)
    ensures |rows| == n
  {
    if n == 0 then [] else Generics(base, n - 1) + [Generic(base, n)]
  }

  function Candidates(base: Experiment, issue: string): seq<Experiment> {
    [base] + Targeted(base, issue) + Generics(base, GENERIC)
  }

  /******* Negative memory *******/

  datatype Print = Of(experiment: Experiment) | Foreign(text: string)

  datatype Seen = Absent | Truth | Falsehood | Odd

  // A ledger row; digest is None when the stored text is no digest, failures when it is no number.
  datatype Row = Row(digest: Option<Print>, execution: Seen, outcome: string, failures: Option<int>, texts: seq<string>)

  datatype Request = Request(failureClass: string, status: string, dominantIssue: string, history: seq<Row>)

  predicate Blocks(row: Row) {
    && row.execution != Falsehood
    && (row.outcome in {"profile-unavailable", "not-generated"} ==> row.execution == Truth)
    && row.failures.Some? && row.failures.value > 0
    && row.outcome !in {"accepted", "verified", "success"}
  }

  method FailedFingerprints(history: seq<Row>) returns (out: set<Print>)
    ensures out == Failed(history)
  {
    out := {};
    for i := 0 to |history|
      invariant out == Failed(history[..i])
    {
      var row := history[i];
      FailedOneMore(history[..i], row);
      assert history[..i + 1] == history[..i] + [row];
      if row.digest.Some? && Blocks(row) {
        out := out + {row.digest.value};
      }
    }
    assert history[..|history|] == history;
  }

  function Failed(history: seq<Row>): set<Print> {
    set row | row in history && row.digest.Some? && Blocks(row) :: row.digest.value
  }

  lemma FailedOneMore(history: seq<Row>, row: Row)
    ensures Failed(history + [row])
            == Failed(history) + if row.digest.Some? && Blocks(row) then {row.digest.value} else {}
  {
  }

  function Joined(parts: seq<string>): string {
    if parts == [] then ""
    else if |parts| == 1 then parts[0]
    else Joined(parts[..|parts| - 1]) + " " + parts[|parts| - 1]
  }

  function Texts(rows: seq<Row>): seq<string> {
    if rows == [] then [] else Texts(rows[..|rows| - 1]) + rows[|rows| - 1].texts
  }

  // The words of the request and of the last twelve rows; case is already folded.
  function Issue(request: Request): string {
    var h := request.history;
    Joined([request.failureClass, request.status, request.dominantIssue] + Texts(if |h| > 12 then h[|h| - 12..] else h))
  }

  /******* Choosing *******/

  function FirstUnblocked(rows: seq<Experiment>, blocked: set<Print>): Option<Experiment> {
    if rows == [] then None
    else if Of(rows[0]) !in blocked then Some(rows[0])
    else FirstUnblocked(rows[1..], blocked)
  }

  // Repeated candidates are skipped without changing the choice.
  method FirstFree(candidates: seq<Experiment>, blocked: set<Print>) returns (choice: Option<Experiment>)
    ensures choice == FirstUnblocked(candidates, blocked)
  {
    var seen: set<Print> := {};
    var rest := candidates;
    while rest != []
      invariant FirstUnblocked(candidates, blocked) == FirstUnblocked(rest, blocked)
      invariant seen <= blocked
    {
      var row := rest[0];
      rest := rest[1..];
      if Of(row) in seen {
        continue;
      }
      if Of(row) !in blocked {
        return Some(row);
      }
      seen := seen + {Of(row)};
    }
    choice := None;
  }

  method NextAdvisorExperiment(request: Request, strategy: Strategy) returns (choice: Option<Experiment>)
    ensures choice == Next(request, strategy)
  {
    var base := Default(strategy);
    if base.None? {
      return None;
    }
    var blocked := FailedFingerprints(request.history);
    choice := FirstFree(Candidates(base.value, Issue(request)), blocked);
  }

  function Next(request: Request, strategy: Strategy): Option<Experiment> {
    var base := Default(strategy);
    if base.None? then None
    else FirstUnblocked(Candidates(base.value, Issue(request)), Failed(request.history))
  }

  function ReservationOf(request: Request, experiment: Experiment): Row {
    Row(Some(Of(experiment)), Absent, "candidate-reserved", Some(1),
        ["reserve distinct hypothesis inside current advisor batch", "candidate_reserved", request.failureClass])
  }

  method ReserveAdvisorExperiment(request: Request, proposal: Option<Experiment>)
    returns (reserved: bool, after: Request)
    ensures reserved <==> proposal.Some? && Of(proposal.value) !in Failed(request.history)
    ensures after == if reserved then Reserved(request, proposal.value) else request
  {
    if proposal.None? {
      return false, request;
    }
    var failed := FailedFingerprints(request.history);
    if Of(proposal.value) in failed {
      return false, request;
    }
    reserved := true;
    after := request.(history := request.history + [ReservationOf(request, proposal.value)]);
  }

  function Reserved(request: Request, experiment: Experiment): Request {
    request.(history := request.history + [ReservationOf(request, experiment)])
  }

  /******* Rotation *******/

  // What any history can be offered: the default, three targeted variants, the generic ones.
  function Pool(base: Experiment): (pool: seq<Experiment>)
    ensures |pool| == 28
  {
    [base, TransportVariant(base), LookupVariant(base), TerminalVariant(base)] + Generics(base, GENERIC)
  }

  lemma CandidatesComeFromPool(base: Experiment, issue: string, e: Experiment)
    requires e in Candidates(base, issue)
    ensures e in Pool(base)
  {
  }

  lemma {:induction false} FirstUnblockedHolds(rows: seq<Experiment>, blocked: set<Print>)
    ensures var choice := FirstUnblocked(rows, blocked);
            choice.Some? ==> choice.value in rows && Of(choice.value) !in blocked
    ensures FirstUnblocked(rows, blocked).None? ==> forall e :: e in rows ==> Of(e) in blocked
  {
    if rows != [] {
      FirstUnblockedHolds(rows[1..], blocked);
      assert rows == [rows[0]] + rows[1..];
    }
  }

  // The first candidate that has not failed: all in front of it have.
  lemma {:induction false} FirstUnblockedIsFirst(rows: seq<Experiment>, blocked: set<Print>) returns (k: nat)
    ensures k <= |rows| && forall i :: 0 <= i < k ==> Of(rows[i]) in blocked
    ensures if k == |rows| then FirstUnblocked(rows, blocked).None?
            else Of(rows[k]) !in blocked && FirstUnblocked(rows, blocked) == Some(rows[k])
  {
    k := 0;
    if rows != [] && Of(rows[0]) in blocked {
      var j := FirstUnblockedIsFirst(rows[1..], blocked);
      k := j + 1;
      assert forall i :: 1 <= i < k ==> rows[i] == rows[1..][i - 1];
    }
  }

  // An offer is the strategy's default until that has failed, then the variants the issue asks for in
  // the order of transport, lookup and terminal, then the generic ones.
  lemma OfferIsFirst(request: Request, strategy: Strategy) returns (k: nat)
    requires Default(strategy).Some?
    ensures var rows := Candidates(Default(strategy).value, Issue(request));
            && k <= |rows| && rows[0] == Default(strategy).value
            && (forall i :: 0 <= i < k ==> Of(rows[i]) in Failed(request.history))
            && Next(request, strategy) == (if k == |rows| then None else Some(rows[k]))
            && (k < |rows| ==> Of(rows[k]) !in Failed(request.history))
  {
    k := FirstUnblockedIsFirst(Candidates(Default(strategy).value, Issue(request)), Failed(request.history));
  }

  function Offering(strategy: Strategy): Request -> Option<Experiment> {
    (request: Request) => Next(request, strategy)
  }

  // Propose and reserve, at most n times.
  function Proposals(request: Request, offer: Request -> Option<Experiment>, n: nat): seq<Experiment>
    decreases n
  {
    var choice := offer(request);
    if n == 0 || choice.None? then []
    else [choice.value] + Proposals(Reserved(request, choice.value), offer, n - 1)
  }

  ghost predicate Fresh(rows: seq<Experiment>, blocked: set<Print>) {
    forall i :: 0 <= i < |rows| ==> Of(rows[i]) !in blocked
  }

  lemma ReservationBlocks(request: Request, e: Experiment)
    ensures Failed(Reserved(request, e).history) == Failed(request.history) + {Of(e)}
  {
  }

  // What an offer promises about the history it is made for.
  ghost predicate Keeps(offer: Request -> Option<Experiment>, pool: seq<Experiment>) {
    forall request: Request :: offer(request).Some?
      ==> offer(request).value in pool && Of(offer(request).value) !in Failed(request.history)
  }

  lemma OffersKeep(strategy: Strategy)
    requires Default(strategy).Some?
    ensures Keeps(Offering(strategy), Pool(Default(strategy).value))
  {
    var base := Default(strategy).value;
    forall request: Request | Offering(strategy)(request).Some?
      ensures Next(request, strategy).value in Pool(base)
      ensures Of(Next(request, strategy).value) !in Failed(request.history)
    {
      FirstUnblockedHolds(Candidates(base, Issue(request)), Failed(request.history));
      CandidatesComeFromPool(base, Issue(request), Next(request, strategy).value);
    }
  }

  lemma {:induction false} ProposalsAreFresh(request: Request, offer: Request -> Option<Experiment>,
                                             pool: seq<Experiment>, n: nat)
    requires Keeps(offer, pool)
    ensures var rows := Proposals(request, offer, n);
            && Distinct(rows)
            && Fresh(rows, Failed(request.history))
            && forall e :: e in rows ==> e in pool
    decreases n
  {
    var choice := offer(request);
    if n > 0 && choice.Some? {
      var after := Reserved(request, choice.value);
      ReservationBlocks(request, choice.value);
      ProposalsAreFresh(after, offer, pool, n - 1);
      FreshInFront(choice.value, Proposals(after, offer, n - 1), Failed(request.history));
    }
  }

  lemma FreshInFront(first: Experiment, rest: seq<Experiment>, blocked: set<Print>)
    requires Distinct(rest) && Fresh(rest, blocked + {Of(first)}) && Of(first) !in blocked
    ensures Distinct([first] + rest) && Fresh([first] + rest, blocked)
  {
  }

  // Rotation never repeats an experiment, never offers a failed one, and stays in the pool.
  lemma RotationIsFresh(request: Request, strategy: Strategy, n: nat)
    requires Default(strategy).Some?
    ensures var rows := Proposals(request, Offering(strategy), n);
            && Distinct(rows)
            && Fresh(rows, Failed(request.history))
            && forall e :: e in rows ==> e in Pool(Default(strategy).value)
  {
    OffersKeep(strategy);
    ProposalsAreFresh(request, Offering(strategy), Pool(Default(strategy).value), n);
  }

  lemma {:induction false} DistinctFits(rows: seq<Experiment>, pool: set<Experiment>)
    requires Distinct(rows) && forall e :: e in rows ==> e in pool
    ensures |rows| <= |pool|
  {
    if rows != [] {
      var last := rows[|rows| - 1];
      forall e | e in rows[..|rows| - 1]
        ensures e in pool - {last}
      {
      }
      DistinctFits(rows[..|rows| - 1], pool - {last});
    }
  }

  lemma {:induction false} PoolIsFinite(pool: seq<Experiment>)
    ensures |set e | e in pool| <= |pool|
  {
    if pool != [] {
      PoolIsFinite(pool[1..]);
      assert (set e | e in pool) == (set e | e in pool[1..]) + {pool[0]};
    }
  }

  // However often one asks, a strategy yields at most 28 experiments.
  lemma RotationStops(request: Request, strategy: Strategy, n: nat)
    requires Default(strategy).Some?
    ensures |Proposals(request, Offering(strategy), n)| <= 28
  {
    var pool := Pool(Default(strategy).value);
    RotationIsFresh(request, strategy, n);
    PoolIsFinite(pool);
    DistinctFits(Proposals(request, Offering(strategy), n), set e | e in pool);
  }

  // A rotation that stops early stops for good: it reached a history with nothing to offer, whose
  // blocked experiments are those blocked before and the ones just reserved.
  lemma {:induction false} StoppingIsFinal(request: Request, offer: Request -> Option<Experiment>, n: nat)
    returns (last: Request)
    requires |Proposals(request, offer, n)| < n
    ensures offer(last).None?
    ensures Failed(last.history) == Failed(request.history) + set e | e in Proposals(request, offer, n) :: Of(e)
    decreases n
  {
    var choice := offer(request);
    if choice.None? {
      last := request;
    } else {
      var after := Reserved(request, choice.value);
      var rest := Proposals(after, offer, n - 1);
      ReservationBlocks(request, choice.value);
      last := StoppingIsFinal(after, offer, n - 1);
      assert forall e :: e in [choice.value] + rest <==> e == choice.value || e in rest;
    }
  }

  // When a strategy runs dry, every candidate of the history it reached has failed or was tried.
  lemma StoppingIsExhaustion(request: Request, strategy: Strategy, n: nat) returns (last: Request)
    requires Default(strategy).Some?
    ensures |Proposals(request, Offering(strategy), n)| == n
            || (Next(last, strategy).None?
                && forall e :: e in Candidates(Default(strategy).value, Issue(last))
                     ==> Of(e) in Failed(request.history) || e in Proposals(request, Offering(strategy), n))
  {
    last := request;
    ProposalsAreBounded(request, Offering(strategy), n);
    if |Proposals(request, Offering(strategy), n)| < n {
      last := StoppingIsFinal(request, Offering(strategy), n);
      FirstUnblockedHolds(Candidates(Default(strategy).value, Issue(last)), Failed(last.history));
    }
  }

  lemma Bits(n: nat)
    requires n <= GENERIC
    ensures n == 16 * (n / 16) + 8 * (n / 8 % 2) + 4 * (n / 4 % 2) + 2 * (n / 2 % 2) + n % 2 && n / 16 <= 1
  {
  }

  lemma NumbersDiffer(i: nat, j: nat)
    requires i < j <= GENERIC
    ensures || i % 2 != j % 2 || i / 2 % 2 != j / 2 % 2 || i / 4 % 2 != j / 4 % 2 || i / 8 % 2 != j / 8 % 2
            || i % 5 != j % 5
  {
    Bits(i);
    Bits(j);
  }

  // Everything a variant takes from the bits of its number, and its depth.
  function Switches(e: Experiment): (bool, bool, bool, bool, int) {
    (e.aliasSearch, e.salvage, e.mining, e.session, e.depth)
  }

  lemma SwitchesOf(base: Experiment, i: nat)
    ensures Switches(Generic(base, i)) == (i % 2 == 1, i / 2 % 2 == 1, i / 4 % 2 == 1, i / 8 % 2 == 1, 2 + i % 5)
  {
  }

  // No two variants are the same: sixteen apart they differ in depth, else in a switch.
  lemma GenericsDiffer(base: Experiment, i: nat, j: nat)
    requires i < j <= GENERIC
    ensures Generic(base, i) != Generic(base, j)
  {
    SwitchesOf(base, i);
    SwitchesOf(base, j);
    NumbersDiffer(i, j);
    assert Switches(Generic(base, i)) != Switches(Generic(base, j));
  }

  lemma {:induction false} GenericsAreDistinct(base: Experiment, n: nat)
    requires n <= GENERIC
    ensures Distinct(Generics(base, n))
    ensures forall k :: 0 <= k < n ==> Generics(base, n)[k] == Generic(base, k + 1)
  {
    if n > 0 {
      GenericsAreDistinct(base, n - 1);
      forall k | 0 <= k < n - 1
        ensures Generics(base, n)[k] != Generic(base, n)
      {
        GenericsDiffer(base, k + 1, n);
      }
    }
  }

  lemma {:induction false} DistinctFitsTwo(rows: seq<Experiment>, failed: set<Print>, tried: set<Experiment>)
    requires Distinct(rows) && forall e :: e in rows ==> Of(e) in failed || e in tried
    ensures |rows| <= |failed| + |tried|
  {
    if rows != [] {
      var last := rows[|rows| - 1];
      if Of(last) in failed {
        DistinctFitsTwo(rows[..|rows| - 1], failed - {Of(last)}, tried);
      } else {
        DistinctFitsTwo(rows[..|rows| - 1], failed, tried - {last});
      }
    }
  }

  // A strategy is not given up before two dozen experiments have failed or been tried.
  lemma RotationLasts(request: Request, strategy: Strategy, n: nat)
    requires Default(strategy).Some?
    ensures |Proposals(request, Offering(strategy), n)| >= Min(n, 24 - |Failed(request.history)|)
  {
    var base, rows := Default(strategy).value, Proposals(request, Offering(strategy), n);
    var last := StoppingIsExhaustion(request, strategy, n);
    if |rows| != n {
      GenericsAreDistinct(base, GENERIC);
      forall e | e in Generics(base, GENERIC)
        ensures Of(e) in Failed(request.history) || e in (set x | x in rows)
      {
        assert e in Candidates(base, Issue(last));
      }
      DistinctFitsTwo(Generics(base, GENERIC), Failed(request.history), set x | x in rows);
      PoolIsFinite(rows);
    }
  }

  lemma {:induction false} ProposalsAreBounded(request: Request, offer: Request -> Option<Experiment>, n: nat)
    ensures |Proposals(request, offer, n)| <= n
    decreases n
  {
    if n > 0 && offer(request).Some? {
      ProposalsAreBounded(Reserved(request, offer(request).value), offer, n - 1);
    }
  }

  /******* The publisher's sanitizer *******/

  datatype Field<T> = Missing | Unusable | Value(value: T)

  datatype RawRole = Known(role: Role) | Stray

  // A proposed experiment as decoded. Unusable is what int() refuses, or a policy off the list.
  datatype Raw = Raw(extra: bool, route: Field<Route>, recipe: Field<Recipe>, roles: Option<seq<RawRole>>,
                     terminalOnly: Option<bool>, aliasSearch: Option<bool>, salvage: Option<bool>, mining: Option<bool>,
                     session: Option<bool>, depth: Field<int>, pages: Field<int>, embeds: Field<int>,
                     passes: Field<int>)

  datatype Result = Ok(experiment: Experiment) | UnexpectedField | InvalidPolicy | InvalidRole

  function Bounded(v: Field<int>, preset: Field<int>, low: int, high: int, fallback: int): int
    requires low <= high
  {
    var field := if v.Missing? then preset else v;
    var n := if field.Value? then field.value else fallback;
    if n < low then low else if n > high then high else n
  }

  function Known7(): seq<RawRole> {
    [Known(Search), Known(Detail), Known(Episode), Known(Player), Known(Source), Known(Api), Known(Other)]
  }

  function AsRaw(roles: seq<Role>): (raw: seq<RawRole>)
    ensures |raw| == |roles| && forall i :: 0 <= i < |roles| ==> raw[i] == Known(roles[i])
  {
    seq(|roles|, i requires 0 <= i < |roles| => Known(roles[i]))
  }

  // The distinct roles in order, or None at a stray one.
  function RolesOf(raw: seq<RawRole>): Option<seq<Role>> {
    if raw == [] then Some([])
    else
      var front := RolesOf(raw[..|raw| - 1]);
      var last := raw[|raw| - 1];
      if front.None? || last.Stray? then None
      else if last.role in front.value then front else Some(front.value + [last.role])
  }

  // What the publisher falls back on: the strategy's defaults, flags false where it lists none.
  function RawDefault(strategy: Strategy): Raw {
    var d := Default(strategy);
    if d.None?
    then Raw(false, Missing, Missing, None, None, None, None, None, None, Missing, Missing, Missing, Missing)
    else RawOf(d.value)
  }

  // An experiment as the generator proposes it: every field present.
  function RawOf(e: Experiment): Raw {
    Raw(false, Value(e.route), Value(e.recipe), Some(AsRaw(e.roles)), Some(e.terminalOnly), Some(e.aliasSearch),
        Some(e.salvage), Some(e.mining), Some(e.session), Value(e.depth), Value(e.pages), Value(e.embeds),
        Value(e.passes))
  }

  function OrElse<T>(a: Option<T>, b: Option<T>, fallback: T): T {
    if a.Some? then a.value else if b.Some? then b.value else fallback
  }

  function Policy<T>(a: Field<T>, b: Field<T>, fallback: T): Option<T> {
    var field := if a.Missing? then b else a;
    if field.Unusable? then None else Some(if field.Missing? then fallback else field.value)
  }

  function Sanitized(raw: Raw, strategy: Strategy): Result {
    var preset := RawDefault(strategy);
    var route := Policy(raw.route, preset.route, OwnedOnly);
    var recipe := Policy(raw.recipe, preset.recipe, CurrentOnly);
    var roles := RolesOf(OrElse(raw.roles, preset.roles, Known7()));
    if raw.extra then UnexpectedField
    else if route.None? || recipe.None? then InvalidPolicy
    else if roles.None? then InvalidRole
    else
      Ok(Experiment(route.value, recipe.value, if |roles.value| > 7 then roles.value[..7] else roles.value,
                    OrElse(raw.terminalOnly, preset.terminalOnly, false),
                    OrElse(raw.aliasSearch, preset.aliasSearch, false),
                    OrElse(raw.salvage, preset.salvage, false), OrElse(raw.mining, preset.mining, false),
                    OrElse(raw.session, preset.session, false),
                    Bounded(raw.depth, preset.depth, 2, 6, 4), Bounded(raw.pages, preset.pages, 6, 36, 18),
                    Bounded(raw.embeds, preset.embeds, 6, 36, 20), Bounded(raw.passes, preset.passes, 1, 6, 4)))
  }

  method CollectRoles(raw: seq<RawRole>) returns (roles: Option<seq<Role>>)
    ensures roles == RolesOf(raw)
  {
    var out: seq<Role> := [];
    for i := 0 to |raw|
      invariant RolesOf(raw[..i]) == Some(out)
    {
      assert raw[..i + 1][..i] == raw[..i];
      if raw[i].Stray? {
        StrayIsRefused(raw, i);
        return None;
      }
      if raw[i].role !in out {
        out := out + [raw[i].role];
      }
    }
    assert raw[..|raw|] == raw;
    roles := Some(out);
  }

  lemma {:induction false} StrayIsRefused(raw: seq<RawRole>, i: nat)
    requires i < |raw| && raw[i].Stray?
    ensures RolesOf(raw).None?
  {
    if i < |raw| - 1 { StrayIsRefused(raw[..|raw| - 1], i); }
  }

  /******* Generated experiments pass the sanitizer unchanged *******/

  predicate DistinctRoles(roles: seq<Role>) {
    |roles| <= 7 && forall i, j :: 0 <= i < j < |roles| ==> roles[i] != roles[j]
  }

  predicate InBounds(e: Experiment) {
    && DistinctRoles(e.roles)
    && 2 <= e.depth <= 6 && 6 <= e.pages <= 36 && 6 <= e.embeds <= 36 && 1 <= e.passes <= 6
  }

  lemma {:induction false} DistinctRolesStay(roles: seq<Role>)
    requires forall i, j :: 0 <= i < j < |roles| ==> roles[i] != roles[j]
    ensures RolesOf(AsRaw(roles)) == Some(roles)
  {
    if roles != [] {
      var n := |roles| - 1;
      DistinctRolesStay(roles[..n]);
      assert AsRaw(roles)[..n] == AsRaw(roles[..n]);
      assert roles == roles[..n] + [roles[n]];
    }
  }

  // An experiment is published as proposed exactly when it is in bounds.
  lemma PublishedAsProposed(e: Experiment, strategy: Strategy)
    ensures InBounds(e) <==> Sanitized(RawOf(e), strategy) == Ok(e)
  {
    if InBounds(e) {
      DistinctRolesStay(e.roles);
    } else if Sanitized(RawOf(e), strategy) == Ok(e) {
      RolesAreDistinct(AsRaw(e.roles));
    }
  }

  // Whatever is proposed, what is published is in bounds, and would be published again as it is.
  lemma PublishedIsInBounds(raw: Raw, strategy: Strategy)
    requires Sanitized(raw, strategy).Ok?
    ensures var e := Sanitized(raw, strategy).experiment; InBounds(e) && Sanitized(RawOf(e), strategy) == Ok(e)
  {
    RolesAreDistinct(OrElse(raw.roles, RawDefault(strategy).roles, Known7()));
    PublishedAsProposed(Sanitized(raw, strategy).experiment, strategy);
  }

  // It is refused exactly for a field of its own, for a policy off the list or for an unknown role.
  lemma RefusedExactly(raw: Raw, strategy: Strategy)
    ensures Sanitized(raw, strategy).Ok? <==>
              && !raw.extra && !raw.route.Unusable? && !raw.recipe.Unusable?
              && (raw.roles.Some? ==> Stray !in raw.roles.value)
  {
    StrayExactly(if raw.roles.Some? then raw.roles.value else []);
    if Default(strategy).Some? { StrayExactly(AsRaw(Default(strategy).value.roles)); }
    StrayExactly(Known7());
  }

  lemma {:induction false} StrayExactly(raw: seq<RawRole>)
    ensures RolesOf(raw).None? <==> Stray in raw
  {
    if raw != [] {
      StrayExactly(raw[..|raw| - 1]);
      assert raw == raw[..|raw| - 1] + [raw[|raw| - 1]];
    }
  }

  lemma {:induction false} RolesAreDistinct(raw: seq<RawRole>)
    ensures RolesOf(raw).Some? ==> forall i, j ::
              0 <= i < j < |RolesOf(raw).value| ==> RolesOf(raw).value[i] != RolesOf(raw).value[j]
  {
    if raw != [] { RolesAreDistinct(raw[..|raw| - 1]); }
  }

  lemma SevenRoleDefaultsAreInBounds(strategy: Strategy)
    requires strategy.OriginReplay? || strategy.SearchTraversal? || strategy.ApiDiscovery?
    ensures InBounds(Default(strategy).value)
  {
  }

  lemma SixRoleDefaultsAreInBounds(strategy: Strategy)
    requires strategy.TerminalExtractor? || strategy.CandidateReplay? || strategy.RequestProgram?
    ensures InBounds(Default(strategy).value)
  {
  }

  lemma DefaultsAreInBounds(strategy: Strategy)
    requires Default(strategy).Some?
    ensures InBounds(Default(strategy).value)
  {
    if strategy.OriginReplay? || strategy.SearchTraversal? || strategy.ApiDiscovery? {
      SevenRoleDefaultsAreInBounds(strategy);
    } else {
      SixRoleDefaultsAreInBounds(strategy);
    }
  }

  lemma RotationKeepsRoles(roles: seq<Role>, shift: nat)
    requires DistinctRoles(roles)
    ensures DistinctRoles(Rotated(roles, shift))
  {
  }

  lemma {:induction false} GenericsAreInBounds(base: Experiment, n: nat)
    requires InBounds(base)
    ensures forall i :: 0 <= i < n ==> InBounds(Generics(base, n)[i])
  {
    if n > 0 {
      GenericsAreInBounds(base, n - 1);
      RotationKeepsRoles(base.roles, n);
      assert InBounds(Generic(base, n));
    }
  }

  lemma PoolIsInBounds(base: Experiment)
    requires InBounds(base)
    ensures forall i :: 0 <= i < 28 ==> InBounds(Pool(base)[i])
  {
    GenericsAreInBounds(base, GENERIC);
    var four := [base, TransportVariant(base), LookupVariant(base), TerminalVariant(base)];
    assert forall i :: 0 <= i < 4 ==> InBounds(four[i]);
  }

  // Runtime and publisher agree on the identity of every experiment the generator offers.
  lemma OfferIsPublishedUnchanged(request: Request, strategy: Strategy)
    ensures var offer := Next(request, strategy);
            offer.Some? ==> InBounds(offer.value) && Sanitized(RawOf(offer.value), strategy) == Ok(offer.value)
  {
    var offer := Next(request, strategy);
    if offer.Some? {
      var base := Default(strategy).value;
      FirstUnblockedHolds(Candidates(base, Issue(request)), Failed(request.history));
      CandidatesComeFromPool(base, Issue(request), offer.value);
      DefaultsAreInBounds(strategy);
      PoolIsInBounds(base);
      PublishedAsProposed(offer.value, strategy);
    }
  }
}
