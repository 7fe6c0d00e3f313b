/**
 The executed-failure ledger as three programs read it: the adapter that projects it
 into the request, the planner that refuses a remembered mutation, and the publisher
 that filters candidates on its own. A SHA-256 fingerprint is modelled by the value it
 is taken of.
 */
module ForceMemory {
  import opened Basics

  datatype Scope = ProviderData | ProviderPatch | ProviderBloc | ProviderJs | OtherScope

  datatype Mutation = Mutation(scope: Scope, path: string, payload: string)

  datatype Surface = Surface(path: string, sha: string)

  datatype Digest =
    | OfMutations(mutations: seq<Mutation>) | OfSurfaces(surfaces: seq<Surface>)
    | OtherHex(text: string) | NotHex(text: string) | Clipped(of: Digest, blanks: nat)

  predicate IsHex(d: Digest) { !d.NotHex? && !d.Clipped? }

  // A fingerprint as the ledger spells it: as it is, with more text behind it, or behind so many blanks.
  datatype Spelling = Plain | Overlong | Indented(blanks: nat)
  datatype Stored = Stored(digest: Digest, spelling: Spelling)

  // The outcomes no mutation is blocked for, with the spelling of the two-word ones.
  datatype Separator = Underscore | Hyphen | Space
  datatype Outcome =
    | NotGenerated(sep: Separator) | ProfileUnavailable(sep: Separator)
    | Accepted | Verified | Success | OtherOutcome(text: string)

  // `executionObserved` in a ledger row: missing, a boolean, or something else.
  datatype Execution = Absent | Flag(value: bool) | NotBoolean

  datatype LedgerRow = LedgerRow(provider: string, mutation: Stored, context: Stored,
                                 failures: int, successes: int, outcome: Outcome, execution: Execution)

  datatype MemoryRow = MemoryRow(mutation: Digest, context: Digest, failures: int, outcome: Outcome,
                                 executed: Execution)
  {
    function Key(): (Digest, Digest) { (mutation, context) }
  }

  datatype Source =
    | NoSource | CensusCurrent | RuntimeCoverage | TargetedRegression | CensusSharded | ProviderStructure
    | WafDifferential | RefinedBatch | RepairExperience | RepairMemory | SandboxMemory
    | PortfolioReservation | PortfolioRejection | PublicUpstream | LivePreflight

  datatype Stage = NoStage | ValidationFeedback | OtherStage

  datatype Reason =
    | NoReason | CausallyEmptyDeletion | NoOpEdit | RemovedLiveBinding | NegativeMemory | OtherReason(code: string)

  datatype Value = Rows(rows: seq<MemoryRow>) | Opaque(text: string)

  // `rejectedUnit` holds the source text whose fingerprint the observation carries.
  datatype Observation = Observation(stage: Stage, source: Source, reason: Reason,
                                     rejectedUnit: Option<string>, rotate: bool, value: Value)

  predicate TwoWord(o: Outcome) { o.NotGenerated? || o.ProfileUnavailable? }

  predicate Positive(o: Outcome) { o.Accepted? || o.Verified? || o.Success? }

  /******* Publisher *******/

  // Lower case, hyphens as underscores: a blank between the words is not recognised.
  predicate PublisherExempts(o: Outcome) {
    Positive(o) || (TwoWord(o) && o.sep != Space)
  }

  // The publisher strips the text and then wants the digits of a fingerprint and no more.
  function PublisherReads(s: Stored): Digest {
    if s.spelling.Overlong? then NotHex("") else s.digest
  }

  predicate PublisherNegative(row: LedgerRow) {
    && !PublisherExempts(row.outcome) && row.execution != Flag(false)
    && row.provider != "" && IsHex(PublisherReads(row.mutation)) && IsHex(PublisherReads(row.context))
    && row.failures > 0
  }

  function PublisherKey(row: LedgerRow): (string, Digest, Digest) {
    (row.provider, PublisherReads(row.mutation), PublisherReads(row.context))
  }

  method LoadForceMemory(entries: seq<LedgerRow>) returns (blocked: set<(string, Digest, Digest)>)
    ensures blocked == Blocked(entries)
  {
    blocked := {};
    for i := 0 to |entries|
      invariant blocked == Blocked(entries[..i])
    {
      assert entries[..i + 1] == entries[..i] + [entries[i]];
      if PublisherNegative(entries[i]) {
        blocked := blocked + {PublisherKey(entries[i])};
      }
    }
    assert entries[..|entries|] == entries;
  }

  function Blocked(entries: seq<LedgerRow>): set<(string, Digest, Digest)> {
    set row | row in entries && PublisherNegative(row) :: PublisherKey(row)
  }

  predicate ForceCandidateBlocked(blocked: set<(string, Digest, Digest)>, provider: string,
                                  mutation: Digest, context: Digest, scopes: set<Scope>)
  {
    || (provider, mutation, context) in blocked
    || (ProviderBloc in scopes && exists t :: t in blocked && t.0 == provider && t.1 == mutation)
  }

  /******* Adapter *******/

  // Lower case, underscores as blanks: a hyphen between the words is not recognised.
  predicate AdapterExempts(o: Outcome) {
    Positive(o) || (TwoWord(o) && o.sep != Hyphen)
  }

  const DIGITS := 64

  // The adapter keeps the first 64 characters, blanks included.
  function AdapterReads(s: Stored): Digest {
    if !s.spelling.Indented? || s.spelling.blanks == 0 then s.digest
    else if s.spelling.blanks < DIGITS then Clipped(s.digest, s.spelling.blanks)
    else NotHex(seq(DIGITS, _ => ' '))
  }

  function Projected(row: LedgerRow): MemoryRow {
    MemoryRow(AdapterReads(row.mutation), AdapterReads(row.context), row.failures, row.outcome,
              Flag(!AdapterExempts(row.outcome) && (row.execution.Absent? || row.execution == Flag(true))))
  }

  predicate Visible(row: LedgerRow, provider: string) {
    row.provider == provider && (row.failures > 0 || row.successes > 0)
  }

  function VisibleRows(entries: seq<LedgerRow>, provider: string): seq<MemoryRow> {
    if entries == [] then []
    else
      var last := entries[|entries| - 1];
      VisibleRows(entries[..|entries| - 1], provider) + if Visible(last, provider) then [Projected(last)] else []
  }

  // Newest first, one row per key.
  function NewestFrom(rows: seq<MemoryRow>, n: nat, seen: set<(Digest, Digest)>): seq<MemoryRow>
    requires n <= |rows|
  {
    if n == 0 then []
    else if rows[n - 1].Key() in seen then NewestFrom(rows, n - 1, seen)
    else [rows[n - 1]] + NewestFrom(rows, n - 1, seen + {rows[n - 1].Key()})
  }

  function NegativeMemoryOf(entries: seq<LedgerRow>, provider: string): seq<MemoryRow> {
    var out := VisibleRows(entries, provider);
    NewestFrom(out, |out|, {})
  }

  method ProviderForceNegativeMemory(entries: seq<LedgerRow>, provider: string) returns (recent: seq<MemoryRow>)
    ensures recent == NegativeMemoryOf(entries, provider)
  {
    var out: seq<MemoryRow> := [];
    for i := 0 to |entries|
      invariant out == VisibleRows(entries[..i], provider)
    {
      assert entries[..i + 1][..i] == entries[..i];
      if Visible(entries[i], provider) {
        out := out + [Projected(entries[i])];
      }
    }
    assert entries[..|entries|] == entries;
    recent := [];
    var seen: set<(Digest, Digest)> := {};
    for n := |out| downto 0
      invariant recent + NewestFrom(out, n, seen) == NegativeMemoryOf(entries, provider)
    {
      if out[n].Key() !in seen {
        ghost var rest := NewestFrom(out, n, seen + {out[n].Key()});
        assert recent + ([out[n]] + rest) == (recent + [out[n]]) + rest;
        seen := seen + {out[n].Key()};
        recent := recent + [out[n]];
      }
    }
  }

  // Row i is the last one under its key.
  ghost predicate Latest(rows: seq<MemoryRow>, i: int) {
    0 <= i < |rows| && forall j :: i < j < |rows| ==> rows[j].Key() != rows[i].Key()
  }

  ghost predicate IsLatestRow(rows: seq<MemoryRow>, r: MemoryRow) {
    exists i :: Latest(rows, i) && rows[i] == r
  }

  lemma LatestAfterOneMore(front: seq<MemoryRow>, last: MemoryRow, r: MemoryRow)
    ensures IsLatestRow(front + [last], r) <==> r == last || (r.Key() != last.Key() && IsLatestRow(front, r))
  {
    var rows := front + [last];
    assert rows[|front|] == last;
    assert forall i :: 0 <= i < |front| ==> rows[i] == front[i];
    if r == last {
      assert Latest(rows, |front|);
    } else if IsLatestRow(rows, r) {
      var i :| Latest(rows, i) && rows[i] == r;
      assert Latest(front, i);
    }
  }

  lemma {:induction false} NewestRowsAreLatest(rows: seq<MemoryRow>, n: nat, seen: set<(Digest, Digest)>, r: MemoryRow)
    requires n <= |rows|
    ensures r in NewestFrom(rows, n, seen) <==> r.Key() !in seen && IsLatestRow(rows[..n], r)
  {
    if n > 0 {
      var last := rows[n - 1];
      assert rows[..n] == rows[..n - 1] + [last];
      LatestAfterOneMore(rows[..n - 1], last, r);
      NewestRowsAreLatest(rows, n - 1, if last.Key() in seen then seen else seen + {last.Key()}, r);
    }
  }

  /******* Planner *******/

  // Hyphens as underscores, like the publisher.
  predicate PlannerExempts(o: Outcome) {
    PublisherExempts(o)
  }

  predicate PlannerNegative(row: MemoryRow) {
    row.failures > 0 && row.executed != Flag(false) && !PlannerExempts(row.outcome)
  }

  function Scopes(mutations: seq<Mutation>): set<Scope> {
    set m | m in mutations :: m.scope
  }

  predicate Hex64(s: string) {
    |s| == 64 && forall i :: 0 <= i < 64 ==> '0' <= s[i] <= '9' || 'a' <= s[i] <= 'f'
  }

  predicate KnownPath(digests: map<string, string>, path: string) {
    path != "" && path in digests && Hex64(digests[path])
  }

  function Surfaces(mutations: seq<Mutation>, digests: map<string, string>): seq<Surface>
    requires forall m :: m in mutations ==> m.path in digests
  {
    seq(|mutations|, i requires 0 <= i < |mutations| =>
      assert mutations[i] in mutations; Surface(mutations[i].path, digests[mutations[i].path]))
  }

  // The lists the guard looks at: Bloc and patch mutations only, and without a Bloc
  // every patched file's digest must be known.
  predicate Guarded(mutations: seq<Mutation>, digests: map<string, string>) {
    && Scopes(mutations) != {} && Scopes(mutations) <= {ProviderPatch, ProviderBloc}
    && (ProviderBloc in Scopes(mutations) || forall m :: m in mutations ==> KnownPath(digests, m.path))
  }

  predicate RowBlocks(row: MemoryRow, source: Source, mutations: seq<Mutation>, digests: map<string, string>)
    requires Guarded(mutations, digests)
  {
    && row.mutation == OfMutations(mutations)
    && (|| source == PortfolioReservation
        || (PlannerNegative(row) && (ProviderBloc in Scopes(mutations)
                                     || row.context == OfSurfaces(Surfaces(mutations, digests)))))
  }

  predicate ObservationBlocks(o: Observation, mutations: seq<Mutation>, digests: map<string, string>)
    requires Guarded(mutations, digests)
  {
    && (o.source == SandboxMemory || o.source == PortfolioReservation) && o.value.Rows?
    && exists row :: row in o.value.rows && RowBlocks(row, o.source, mutations, digests)
  }

  predicate MemoryBlocks(observations: seq<Observation>, digests: map<string, string>, mutations: seq<Mutation>) {
    Guarded(mutations, digests) && exists o :: o in observations && ObservationBlocks(o, mutations, digests)
  }

  /******* What the guard blocks, list by list *******/

  // Bloc edits, with or without patches beside them.
  predicate BlocList(mutations: seq<Mutation>) {
    && (exists m :: m in mutations && m.scope == ProviderBloc)
    && (forall m :: m in mutations ==> m.scope == ProviderBloc || m.scope == ProviderPatch)
  }

  // Patches of files whose digests are all known, with these surfaces.
  predicate PatchList(mutations: seq<Mutation>, digests: map<string, string>, surfaces: seq<Surface>) {
    && mutations != [] && |surfaces| == |mutations|
    && (forall i :: 0 <= i < |mutations| ==>
          && mutations[i].scope == ProviderPatch && mutations[i].path != "" && mutations[i].path in digests
          && Hex64(digests[mutations[i].path])
          && surfaces[i] == Surface(mutations[i].path, digests[mutations[i].path]))
  }

  // An executed failure, whatever the spelling: no success by any name, and neither of the
  // outcomes of a candidate that never ran.
  predicate ExecutedFailure(row: MemoryRow) {
    && row.failures > 0 && row.executed != Flag(false)
    && row.outcome != Accepted && row.outcome != Verified && row.outcome != Success
    && row.outcome != NotGenerated(Underscore) && row.outcome != NotGenerated(Hyphen)
    && row.outcome != ProfileUnavailable(Underscore) && row.outcome != ProfileUnavailable(Hyphen)
  }

  ghost predicate HoldsRow(observations: seq<Observation>, source: Source, row: MemoryRow) {
    exists o :: o in observations && o.source == source && o.value.Rows? && row in o.value.rows
  }

  // The list is reserved in this run.
  ghost predicate IsReserved(observations: seq<Observation>, mutations: seq<Mutation>) {
    exists row :: HoldsRow(observations, PortfolioReservation, row) && row.mutation == OfMutations(mutations)
  }

  // The list is remembered as an executed failure, in this context if one is asked for.
  ghost predicate IsRemembered(observations: seq<Observation>, mutations: seq<Mutation>, context: Option<Digest>) {
    exists row :: && HoldsRow(observations, SandboxMemory, row) && row.mutation == OfMutations(mutations)
                  && ExecutedFailure(row) && (context.Some? ==> row.context == context.value)
  }

  lemma NegativeIsExecutedFailure(row: MemoryRow)
    ensures PlannerNegative(row) <==> ExecutedFailure(row)
  {
  }

  lemma PatchListIsGuarded(mutations: seq<Mutation>, digests: map<string, string>, surfaces: seq<Surface>)
    requires PatchList(mutations, digests, surfaces)
    ensures Guarded(mutations, digests) && ProviderBloc !in Scopes(mutations)
    ensures surfaces == Surfaces(mutations, digests)
  {
    assert mutations[0] in mutations && mutations[0].scope in Scopes(mutations);
    forall m | m in mutations
      ensures m.scope == ProviderPatch && KnownPath(digests, m.path)
    {
      var i :| 0 <= i < |mutations| && mutations[i] == m;
    }
  }

  lemma GuardedIsPatchList(mutations: seq<Mutation>, digests: map<string, string>)
    requires Guarded(mutations, digests) && ProviderBloc !in Scopes(mutations)
    ensures PatchList(mutations, digests, Surfaces(mutations, digests))
  {
    forall i | 0 <= i < |mutations|
      ensures mutations[i].scope == ProviderPatch && KnownPath(digests, mutations[i].path)
    {
      assert mutations[i] in mutations && mutations[i].scope in Scopes(mutations);
    }
  }

  lemma GuardedWithBloc(mutations: seq<Mutation>, digests: map<string, string>)
    ensures BlocList(mutations) <==> Guarded(mutations, digests) && ProviderBloc in Scopes(mutations)
  {
    forall m | m in mutations
      ensures m.scope in Scopes(mutations)
    {
    }
    assert BlocList(mutations) ==> ProviderBloc in Scopes(mutations);
  }

  lemma GuardedIsBlocOrPatch(mutations: seq<Mutation>, digests: map<string, string>)
    ensures Guarded(mutations, digests) <==> BlocList(mutations) || exists s :: PatchList(mutations, digests, s)
    ensures BlocList(mutations) <==> Guarded(mutations, digests) && ProviderBloc in Scopes(mutations)
    ensures forall s :: PatchList(mutations, digests, s) ==>
              Guarded(mutations, digests) && ProviderBloc !in Scopes(mutations) && s == Surfaces(mutations, digests)
  {
    GuardedWithBloc(mutations, digests);
    if Guarded(mutations, digests) && ProviderBloc !in Scopes(mutations) { GuardedIsPatchList(mutations, digests); }
    forall s | PatchList(mutations, digests, s)
      ensures Guarded(mutations, digests) && ProviderBloc !in Scopes(mutations) && s == Surfaces(mutations, digests)
    {
      PatchListIsGuarded(mutations, digests, s);
    }
  }

  // A Bloc list is blocked by a reservation or by an executed failure of it, whatever the
  // files; a patch list only by a failure on the same files; any other list never.
  ghost predicate BlocksExactly(observations: seq<Observation>, digests: map<string, string>,
                                mutations: seq<Mutation>, blocks: bool)
  {
    && (BlocList(mutations) ==>
          (blocks <==> IsReserved(observations, mutations) || IsRemembered(observations, mutations, None)))
    && (forall s :: PatchList(mutations, digests, s) ==>
          (blocks <==> || IsReserved(observations, mutations)
                       || IsRemembered(observations, mutations, Some(OfSurfaces(s)))))
    && (!BlocList(mutations) && (forall s :: !PatchList(mutations, digests, s)) ==> !blocks)
  }

  lemma GuardBlocksExactly(observations: seq<Observation>, digests: map<string, string>, mutations: seq<Mutation>)
    ensures BlocksExactly(observations, digests, mutations, MemoryBlocks(observations, digests, mutations))
  {
    GuardedIsBlocOrPatch(mutations, digests);
    if Guarded(mutations, digests) {
      var context := if ProviderBloc in Scopes(mutations) then None else Some(OfSurfaces(Surfaces(mutations, digests)));
      BlockedByARow(observations, digests, mutations, context);
    }
  }

  lemma BlockedByARow(observations: seq<Observation>, digests: map<string, string>, mutations: seq<Mutation>,
                      context: Option<Digest>)
    requires Guarded(mutations, digests)
    requires context == if ProviderBloc in Scopes(mutations) then None
                        else Some(OfSurfaces(Surfaces(mutations, digests)))
    ensures MemoryBlocks(observations, digests, mutations)
            <==> IsReserved(observations, mutations) || IsRemembered(observations, mutations, context)
  {
    forall row: MemoryRow
      ensures PlannerNegative(row) <==> ExecutedFailure(row)
    {
      NegativeIsExecutedFailure(row);
    }
    if o :| o in observations && ObservationBlocks(o, mutations, digests) {
      var row :| row in o.value.rows && RowBlocks(row, o.source, mutations, digests);
      assert HoldsRow(observations, o.source, row);
    }
    if row :| HoldsRow(observations, PortfolioReservation, row) && row.mutation == OfMutations(mutations) {
      var o :| o in observations && o.source == PortfolioReservation && o.value.Rows? && row in o.value.rows;
      assert RowBlocks(row, o.source, mutations, digests) && ObservationBlocks(o, mutations, digests);
    }
    if row :| && HoldsRow(observations, SandboxMemory, row) && row.mutation == OfMutations(mutations)
              && ExecutedFailure(row) && (context.Some? ==> row.context == context.value) {
      var o :| o in observations && o.source == SandboxMemory && o.value.Rows? && row in o.value.rows;
      assert RowBlocks(row, o.source, mutations, digests) && ObservationBlocks(o, mutations, digests);
    }
  }

  method ForceMemoryBlocksMutations(observations: seq<Observation>, digests: map<string, string>,
                                    mutations: seq<Mutation>)
    returns (blocks: bool)
    ensures blocks == MemoryBlocks(observations, digests, mutations)
    ensures BlocksExactly(observations, digests, mutations, blocks)
  {
    GuardBlocksExactly(observations, digests, mutations);
    if !Guarded(mutations, digests) {
      return false;
    }
    for i := 0 to |observations|
      invariant forall o :: o in observations[..i] ==> !ObservationBlocks(o, mutations, digests)
    {
      var o := observations[i];
      assert observations[..i + 1] == observations[..i] + [o];
      if (o.source == SandboxMemory || o.source == PortfolioReservation) && o.value.Rows? {
        var rows := o.value.rows;
        for k := 0 to |rows|
          invariant forall r :: r in rows[..k] ==> !RowBlocks(r, o.source, mutations, digests)
        {
          assert rows[..k + 1] == rows[..k] + [rows[k]];
          if RowBlocks(rows[k], o.source, mutations, digests) {
            assert rows[k] in rows && o in observations;
            return true;
          }
        }
        assert rows[..|rows|] == rows;
      }
    }
    assert observations[..|observations|] == observations;
    return false;
  }

  /******* Agreement *******/

  function MemoryObservation(rows: seq<MemoryRow>): Observation {
    Observation(NoStage, SandboxMemory, NoReason, None, false, Rows(rows))
  }

  // The publisher's context of a mutation list; with a Bloc in it, some other digest.
  function PublisherContext(mutations: seq<Mutation>, digests: map<string, string>, blocContext: Digest): Digest
    requires Guarded(mutations, digests)
  {
    if ProviderBloc in Scopes(mutations) then blocContext else OfSurfaces(Surfaces(mutations, digests))
  }

  ghost predicate PlannerBlocks(entries: seq<LedgerRow>, provider: string, mutations: seq<Mutation>,
                                digests: map<string, string>)
  {
    MemoryBlocks([MemoryObservation(NegativeMemoryOf(entries, provider))], digests, mutations)
  }

  ghost predicate PublisherBlocks(entries: seq<LedgerRow>, provider: string, mutations: seq<Mutation>,
                                  digests: map<string, string>, blocContext: Digest)
    requires Guarded(mutations, digests)
  {
    ForceCandidateBlocked(Blocked(entries), provider, OfMutations(mutations),
                          PublisherContext(mutations, digests, blocContext), Scopes(mutations))
  }

  // A pair of fingerprints stands for a Bloc list by its mutations alone, and for a patch list
  // by the patched files too.
  predicate OfList(mutation: Digest, context: Digest, mutations: seq<Mutation>, digests: map<string, string>)
    requires Guarded(mutations, digests)
  {
    && mutation == OfMutations(mutations)
    && (ProviderBloc in Scopes(mutations) || context == OfSurfaces(Surfaces(mutations, digests)))
  }

  // The last row the adapter can show of its key.
  ghost predicate NewestVisible(entries: seq<LedgerRow>, provider: string, i: int) {
    && 0 <= i < |entries| && Visible(entries[i], provider)
    && forall j :: i < j < |entries| && Visible(entries[j], provider)
         ==> Projected(entries[j]).Key() != Projected(entries[i]).Key()
  }

  // A failure the planner still counts: executed as far as the row says, under no exempt outcome.
  predicate StillCounted(row: LedgerRow) {
    row.failures > 0 && (row.execution.Absent? || row.execution == Flag(true)) && !Positive(row.outcome)
      && !TwoWord(row.outcome)
  }

  // Row i is an executed failure of the list, as the publisher reads it.
  ghost predicate KnownFailure(entries: seq<LedgerRow>, provider: string, mutations: seq<Mutation>,
                               digests: map<string, string>, i: int)
    requires Guarded(mutations, digests)
  {
    && 0 <= i < |entries| && entries[i].provider == provider && PublisherNegative(entries[i])
    && OfList(PublisherReads(entries[i].mutation), PublisherReads(entries[i].context), mutations, digests)
  }

  // Row i is the newest one the adapter shows of a key of the list.
  ghost predicate NewestOfList(entries: seq<LedgerRow>, provider: string, mutations: seq<Mutation>,
                               digests: map<string, string>, i: int)
    requires Guarded(mutations, digests)
  {
    && NewestVisible(entries, provider, i)
    && OfList(AdapterReads(entries[i].mutation), AdapterReads(entries[i].context), mutations, digests)
  }

  lemma CountedIsNegative(row: LedgerRow)
    ensures PlannerNegative(Projected(row)) <==> StillCounted(row)
  {
  }

  lemma NewestOfOneMore(front: seq<LedgerRow>, last: LedgerRow, provider: string, i: int)
    ensures NewestVisible(front + [last], provider, i)
            <==> if i == |front| then Visible(last, provider)
                 else NewestVisible(front, provider, i)
                      && (Visible(last, provider) ==> Projected(last).Key() != Projected(front[i]).Key())
  {
    var entries := front + [last];
    assert entries[|front|] == last;
    assert forall j :: 0 <= j < |front| ==> entries[j] == front[j];
  }

  // The newest rows of the projection are the projections of the newest visible rows.
  lemma {:induction false} NewestVisibleRows(entries: seq<LedgerRow>, provider: string, r: MemoryRow)
    ensures IsLatestRow(VisibleRows(entries, provider), r)
            <==> exists i :: NewestVisible(entries, provider, i) && Projected(entries[i]) == r
  {
    if entries != [] {
      var front, last := entries[..|entries| - 1], entries[|entries| - 1];
      assert entries == front + [last];
      NewestVisibleRows(front, provider, r);
      if i :| NewestVisible(front, provider, i) && Projected(front[i]) == r {
        NewestOfOneMore(front, last, provider, i);
        assert entries[i] == front[i];
      }
      if i :| NewestVisible(entries, provider, i) && Projected(entries[i]) == r {
        NewestOfOneMore(front, last, provider, i);
        assert i < |front| ==> entries[i] == front[i];
      }
      if Visible(last, provider) {
        LatestAfterOneMore(VisibleRows(front, provider), Projected(last), r);
        NewestOfOneMore(front, last, provider, |front|);
        assert entries[|front|] == last;
      } else {
        assert VisibleRows(entries, provider) == VisibleRows(front, provider);
      }
    }
  }

  // The planner blocks a list exactly when some newest visible row of it is still counted.
  lemma PlannerBlocksByNewest(entries: seq<LedgerRow>, provider: string, mutations: seq<Mutation>,
                              digests: map<string, string>)
    requires Guarded(mutations, digests)
    ensures PlannerBlocks(entries, provider, mutations, digests)
            <==> exists i :: NewestOfList(entries, provider, mutations, digests, i) && StillCounted(entries[i])
  {
    var memory, out := NegativeMemoryOf(entries, provider), VisibleRows(entries, provider);
    var o := MemoryObservation(memory);
    assert o in [o];
    assert out[..|out|] == out;
    assert PlannerBlocks(entries, provider, mutations, digests) <==> ObservationBlocks(o, mutations, digests);
    if ObservationBlocks(o, mutations, digests) {
      var r :| r in memory && RowBlocks(r, SandboxMemory, mutations, digests);
      NewestRowsAreLatest(out, |out|, {}, r);
      NewestVisibleRows(entries, provider, r);
      var i :| NewestVisible(entries, provider, i) && Projected(entries[i]) == r;
      CountedIsNegative(entries[i]);
      assert NewestOfList(entries, provider, mutations, digests, i);
    }
    if i :| NewestOfList(entries, provider, mutations, digests, i) && StillCounted(entries[i]) {
      var r := Projected(entries[i]);
      CountedIsNegative(entries[i]);
      NewestVisibleRows(entries, provider, r);
      NewestRowsAreLatest(out, |out|, {}, r);
      assert RowBlocks(r, SandboxMemory, mutations, digests);
    }
  }

  // The publisher blocks it exactly when some row is an executed failure of it.
  lemma PublisherBlocksByAny(entries: seq<LedgerRow>, provider: string, mutations: seq<Mutation>,
                             digests: map<string, string>, blocContext: Digest)
    requires Guarded(mutations, digests)
    ensures PublisherBlocks(entries, provider, mutations, digests, blocContext)
            <==> exists i :: KnownFailure(entries, provider, mutations, digests, i)
  {
    if PublisherBlocks(entries, provider, mutations, digests, blocContext) {
      var t :| t in Blocked(entries) && t.0 == provider && OfList(t.1, t.2, mutations, digests);
      var row :| row in entries && PublisherNegative(row) && PublisherKey(row) == t;
      var i :| 0 <= i < |entries| && entries[i] == row;
      assert KnownFailure(entries, provider, mutations, digests, i);
    }
    if i :| KnownFailure(entries, provider, mutations, digests, i) {
      assert PublisherKey(entries[i]) in Blocked(entries);
    }
  }

  // An executed failure of the list is on record, and every newest row of it has stopped
  // counting: no failure left, not executed by its flag, or an exempt outcome.
  ghost predicate Forgotten(entries: seq<LedgerRow>, provider: string, mutations: seq<Mutation>,
                            digests: map<string, string>)
    requires Guarded(mutations, digests)
  {
    && (exists i :: KnownFailure(entries, provider, mutations, digests, i))
    && forall i :: NewestOfList(entries, provider, mutations, digests, i)
         ==> || entries[i].failures <= 0
             || entries[i].execution == NotBoolean || entries[i].execution == Flag(false)
             || Positive(entries[i].outcome) || TwoWord(entries[i].outcome)
  }

  // A newest row of the list counts, and no failure of the list is spelled so that the
  // publisher reads both of its fingerprints.
  ghost predicate Misread(entries: seq<LedgerRow>, provider: string, mutations: seq<Mutation>,
                          digests: map<string, string>)
    requires Guarded(mutations, digests)
  {
    && (exists i :: NewestOfList(entries, provider, mutations, digests, i) && StillCounted(entries[i]))
    && forall i :: 0 <= i < |entries| && entries[i].provider == provider && entries[i].failures > 0
         && OfList(PublisherReads(entries[i].mutation), PublisherReads(entries[i].context), mutations, digests)
         ==> || !IsHex(PublisherReads(entries[i].context))
             || PublisherExempts(entries[i].outcome) || entries[i].execution == Flag(false)
  }

  // Row i would be an executed failure of the list but for what keeps it out of the record.
  lemma KnownUnless(entries: seq<LedgerRow>, provider: string, mutations: seq<Mutation>, digests: map<string, string>,
                    i: int)
    requires provider != "" && Guarded(mutations, digests) && 0 <= i < |entries| && entries[i].provider == provider
    requires entries[i].failures > 0
    requires OfList(PublisherReads(entries[i].mutation), PublisherReads(entries[i].context), mutations, digests)
    ensures !KnownFailure(entries, provider, mutations, digests, i)
            <==> || !IsHex(PublisherReads(entries[i].context))
                 || PublisherExempts(entries[i].outcome) || entries[i].execution == Flag(false)
  {
  }

  lemma NothingKnownWhenMisread(entries: seq<LedgerRow>, provider: string, mutations: seq<Mutation>,
                                digests: map<string, string>)
    requires provider != "" && Guarded(mutations, digests)
    ensures Misread(entries, provider, mutations, digests)
            <==> && (exists i :: NewestOfList(entries, provider, mutations, digests, i) && StillCounted(entries[i]))
                 && forall i :: !KnownFailure(entries, provider, mutations, digests, i)
  {
    forall i | && 0 <= i < |entries| && entries[i].provider == provider && entries[i].failures > 0
               && OfList(PublisherReads(entries[i].mutation), PublisherReads(entries[i].context), mutations, digests)
      ensures !KnownFailure(entries, provider, mutations, digests, i)
              <==> || !IsHex(PublisherReads(entries[i].context))
                   || PublisherExempts(entries[i].outcome) || entries[i].execution == Flag(false)
    {
      KnownUnless(entries, provider, mutations, digests, i);
    }
  }

  // Main result: on any ledger the two differ exactly when the list's failures are forgotten
  // by the planner, or misread by the publisher.
  lemma AgreementIsExact(entries: seq<LedgerRow>, provider: string, mutations: seq<Mutation>,
                         digests: map<string, string>, blocContext: Digest)
    requires provider != "" && Guarded(mutations, digests)
    ensures var planner := PlannerBlocks(entries, provider, mutations, digests);
            var publisher := PublisherBlocks(entries, provider, mutations, digests, blocContext);
            && (publisher && !planner <==> Forgotten(entries, provider, mutations, digests))
            && (planner && !publisher <==> Misread(entries, provider, mutations, digests))
  {
    PlannerBlocksByNewest(entries, provider, mutations, digests);
    PublisherBlocksByAny(entries, provider, mutations, digests, blocContext);
    NothingKnownWhenMisread(entries, provider, mutations, digests);
  }

  // Rows whose fingerprints both programs read alike.
  predicate PlainlySpelled(row: LedgerRow) {
    && row.mutation.spelling.Plain? && row.context.spelling.Plain?
    && IsHex(row.mutation.digest) && IsHex(row.context.digest)
  }

  // On plain fingerprints the planner only forgets: whatever it blocks, the publisher blocks too.
  lemma PlannerBlocksOnlyWhatPublisherBlocks(entries: seq<LedgerRow>, provider: string, mutations: seq<Mutation>,
                                             digests: map<string, string>, blocContext: Digest)
    requires provider != "" && Guarded(mutations, digests)
    requires forall row :: row in entries && row.provider == provider ==> PlainlySpelled(row)
    ensures !Misread(entries, provider, mutations, digests)
    ensures PlannerBlocks(entries, provider, mutations, digests)
            ==> PublisherBlocks(entries, provider, mutations, digests, blocContext)
  {
    AgreementIsExact(entries, provider, mutations, digests, blocContext);
    if i :| NewestOfList(entries, provider, mutations, digests, i) && StillCounted(entries[i]) {
      assert entries[i] in entries;
      assert OfList(PublisherReads(entries[i].mutation), PublisherReads(entries[i].context), mutations, digests);
    }
  }

  // Between an executed failure and its own projection only two spellings differ.
  lemma ProjectionKeepsNegatives(row: LedgerRow)
    requires PublisherNegative(row)
    ensures PlannerNegative(Projected(row))
            <==> row.execution != NotBoolean && !(TwoWord(row.outcome) && row.outcome.sep == Space)
  {
  }

  // A ledger as its writer keeps it: plain fingerprints, boolean or absent execution flags,
  // underscored outcomes, one row per key.
  ghost predicate WellKept(entries: seq<LedgerRow>, provider: string) {
    && (forall row :: row in entries && row.provider == provider ==>
          && PlainlySpelled(row) && row.execution != NotBoolean
          && (TwoWord(row.outcome) ==> row.outcome.sep == Underscore))
    && (forall i, j :: 0 <= i < j < |entries| && entries[i].provider == provider == entries[j].provider ==>
          Projected(entries[i]).Key() != Projected(entries[j]).Key())
  }

  // On a well-kept ledger the planner's guard over the projected memory and the publisher's
  // filter over the raw ledger block the same mutation lists.
  lemma PlannerAndPublisherAgree(entries: seq<LedgerRow>, provider: string, mutations: seq<Mutation>,
                                 digests: map<string, string>, blocContext: Digest)
    requires provider != "" && WellKept(entries, provider) && Guarded(mutations, digests)
    ensures PlannerBlocks(entries, provider, mutations, digests)
            <==> PublisherBlocks(entries, provider, mutations, digests, blocContext)
  {
    AgreementIsExact(entries, provider, mutations, digests, blocContext);
    PlannerBlocksOnlyWhatPublisherBlocks(entries, provider, mutations, digests, blocContext);
    if i :| KnownFailure(entries, provider, mutations, digests, i) {
      assert entries[i] in entries;
      assert NewestOfList(entries, provider, mutations, digests, i);
    }
  }

  /******* Where they differ *******/

  // Two failures of one Bloc in different contexts: the planner forgets the first, yet both
  // still block, so a lost failure alone does not split them.
  lemma AnotherContextStillBlocks(provider: string, mutations: seq<Mutation>, digests: map<string, string>,
                                  c: Digest, d: Digest, blocContext: Digest)
    requires provider != "" && Guarded(mutations, digests) && ProviderBloc in Scopes(mutations)
    requires IsHex(c) && IsHex(d) && c != d
    ensures var m := Stored(OfMutations(mutations), Plain);
            var failed := LedgerRow(provider, m, Stored(c, Plain), 1, 0, OtherOutcome("playback"), Flag(true));
            var repaired := LedgerRow(provider, m, Stored(c, Plain), 0, 1, Success, Flag(true));
            var again := failed.(context := Stored(d, Plain));
            var entries := [failed, repaired, again];
            && KnownFailure(entries, provider, mutations, digests, 0) && !NewestVisible(entries, provider, 0)
            && PlannerBlocks(entries, provider, mutations, digests)
            && PublisherBlocks(entries, provider, mutations, digests, blocContext)
  {
    var m := Stored(OfMutations(mutations), Plain);
    var failed := LedgerRow(provider, m, Stored(c, Plain), 1, 0, OtherOutcome("playback"), Flag(true));
    var repaired := LedgerRow(provider, m, Stored(c, Plain), 0, 1, Success, Flag(true));
    var entries := [failed, repaired, failed.(context := Stored(d, Plain))];
    PlannerBlocksByNewest(entries, provider, mutations, digests);
    PublisherBlocksByAny(entries, provider, mutations, digests, blocContext);
    assert NewestOfList(entries, provider, mutations, digests, 2) && StillCounted(entries[2]);
    assert KnownFailure(entries, provider, mutations, digests, 2);
    assert KnownFailure(entries, provider, mutations, digests, 0);
    assert Visible(entries[1], provider) && Projected(entries[1]).Key() == Projected(entries[0]).Key();
    assert !NewestVisible(entries, provider, 0);
  }

  // A later success under the same key clears a failure for the planner only.
  lemma SupersededFailureSplitsThem(provider: string, mutations: seq<Mutation>, digests: map<string, string>,
                                    c: Digest, blocContext: Digest)
    requires provider != "" && Guarded(mutations, digests) && ProviderBloc in Scopes(mutations) && IsHex(c)
    ensures var m := Stored(OfMutations(mutations), Plain);
            var failed := LedgerRow(provider, m, Stored(c, Plain), 1, 0, OtherOutcome("playback"), Flag(true));
            var repaired := LedgerRow(provider, m, Stored(c, Plain), 0, 1, Success, Flag(true));
            && !PlannerBlocks([failed, repaired], provider, mutations, digests)
            && PublisherBlocks([failed, repaired], provider, mutations, digests, blocContext)
  {
    var m := Stored(OfMutations(mutations), Plain);
    var failed := LedgerRow(provider, m, Stored(c, Plain), 1, 0, OtherOutcome("playback"), Flag(true));
    var repaired := LedgerRow(provider, m, Stored(c, Plain), 0, 1, Success, Flag(true));
    var entries := [failed, repaired];
    AgreementIsExact(entries, provider, mutations, digests, blocContext);
    assert KnownFailure(entries, provider, mutations, digests, 0);
    assert !NewestVisible(entries, provider, 0);
  }

  // A fingerprint with more text behind it is cut for the planner and void for the publisher.
  lemma OverlongFingerprintSplitsThem(provider: string, mutations: seq<Mutation>, digests: map<string, string>,
                                      c: Digest, blocContext: Digest)
    requires provider != "" && Guarded(mutations, digests) && ProviderBloc in Scopes(mutations) && IsHex(c)
    ensures var m := Stored(OfMutations(mutations), Overlong);
            var failed := LedgerRow(provider, m, Stored(c, Plain), 1, 0, OtherOutcome("playback"), Flag(true));
            && PlannerBlocks([failed], provider, mutations, digests)
            && !PublisherBlocks([failed], provider, mutations, digests, blocContext)
  {
    var m := Stored(OfMutations(mutations), Overlong);
    var failed := LedgerRow(provider, m, Stored(c, Plain), 1, 0, OtherOutcome("playback"), Flag(true));
    AgreementIsExact([failed], provider, mutations, digests, blocContext);
    assert NewestOfList([failed], provider, mutations, digests, 0) && StillCounted([failed][0]);
  }
}
