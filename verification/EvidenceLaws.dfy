/**
 Which events are well formed: exactly those the projection leaves as they are, and everything it
 returns is one.
 */
module EvidenceLaws {
  import opened Basics
  import opened Greedy
  import opened Projection
  import opened EvidenceFields
  import opened NetworkEvidence

  /******* Well-formed parts *******/

  predicate IsCount(leaf: Leaf, maximum: nat) {
    leaf.Int? && 0 <= leaf.n <= maximum
  }

  predicate IsFlag(leaf: Leaf) {
    leaf == Missing || leaf.Bool?
  }

  predicate IsStatus(leaf: Leaf) {
    leaf == Null || (leaf.Int? && 100 <= leaf.n <= 599)
  }

  predicate AreNames(g: Grammar, listing: Listing, limit: nat) {
    && listing.List? && |listing.items| <= limit
    && forall i :: 0 <= i < |listing.items| ==> listing.items[i].Str? && g.named(listing.items[i].text)
  }

  ghost predicate AreWords(listing: Listing, allowed: set<string>) {
    && listing.List? && |listing.items| <= 8 && Distinct(listing.items)
    && forall i :: 0 <= i < |listing.items| ==> Is(listing.items[i], allowed)
  }

  predicate IsHttp(http: Http) {
    && Is(http.contentKind, {"html", "json", "text", "media", "binary", "unknown"})
    && Is(http.urlRelation, {"same_url", "same_origin", "cross_origin", "unknown"})
    && Is(http.bodyState, {"not_sampled", "sampled", "complete", "empty", "timeout", "error", "unavailable"})
    && Is(http.pageSignal, {"challenge_markup", "captcha_markup", "access_denied_text", "not_found_text",
                            "rate_limit_text", "none", "unknown"})
    && IsCount(http.sampledBytes, 8192)
  }

  predicate IsMedia(media: Media, limit: nat) {
    && Is(media.signature, {"unknown", "mp4", "ebml", "mpegts", "hls", "html"})
    && Is(media.readState, {"not_read", "data", "empty", "complete", "error"})
    && Is(media.cancelState, {"not_requested", "requested", "complete", "error"})
    && (media.duration == Null || IsCount(media.duration, 1209600)) && IsCount(media.bytes, limit)
  }

  // A status only with a response, an outcome only of an attempt.
  predicate IsOutcome(attempted: bool, status: Leaf, outcome: Leaf, skipped: set<string>) {
    && Is(outcome, if attempted then {"response", "timeout", "error"} else skipped)
    && (if attempted && outcome == Str("response") then IsStatus(status) else status == Null)
  }

  predicate IsProbe(probe: Probe) {
    && probe.attempted.Bool? && IsRef(probe.source) && IsRef(probe.template)
    && IsOutcome(probe.attempted.flag, probe.status, probe.outcome, {"budget_exhausted"})
    && probe.media.Some? && IsMedia(probe.media.value, 32768) && probe.http.Some? && IsHttp(probe.http.value)
  }

  predicate IsReader(reader: Reader) {
    && reader.attempted.Bool? && reader.profile == Str("prior_successful_html") && reader.header == Str("user-agent")
    && IsOutcome(reader.attempted.flag, reader.status, reader.outcome, {"budget_exhausted", "missing_profile"})
    && reader.http.Some? && IsHttp(reader.http.value)
  }

  predicate IsLabel(leaf: Leaf) {
    leaf == Missing || IsRef(leaf)
  }

  // Labels and flags only inside a scope.
  predicate IsAddress(a: Address) {
    if a.scope == Missing then a == Address(Missing, Missing, Missing, Missing, Missing, Missing)
    else IsScope(a.scope) && IsFlag(a.refsTruncated) && IsFlag(a.traceTruncated)
         && IsLabel(a.request) && IsLabel(a.response) && IsLabel(a.referer)
  }

  lemma HttpIsFixed(http: Option<Http>)
    ensures IsHttp(HttpOf(http)) && (http.Some? ==> (IsHttp(http.value) <==> HttpOf(http) == http.value))
  {
  }

  lemma MediaIsFixed(media: Option<Media>, limit: nat)
    ensures IsMedia(MediaOf(media, limit), limit)
    ensures media.Some? ==> (IsMedia(media.value, limit) <==> MediaOf(media, limit) == media.value)
  {
  }

  lemma ProbeIsFixed(probe: Option<Probe>)
    ensures ProbeOf(probe).Some? ==> IsProbe(ProbeOf(probe).value)
    ensures probe.Some? ==> (IsProbe(probe.value) <==> ProbeOf(probe) == probe)
  {
    if probe.Some? {
      MediaIsFixed(probe.value.media, 32768);
      HttpIsFixed(probe.value.http);
    }
  }

  lemma ReaderIsFixed(reader: Reader)
    ensures IsReader(ReaderOf(reader)) && (IsReader(reader) <==> ReaderOf(reader) == reader)
  {
    HttpIsFixed(reader.http);
  }

  lemma AddressIsFixed(a: Address)
    ensures IsAddress(AddressFields(a)) && (IsAddress(a) <==> AddressFields(a) == a)
  {
  }

  /******* Lists *******/

  lemma FixedIff<T(!new)>(rows: seq<T>, project: T -> Option<T>, valid: T -> bool, limit: nat)
    requires forall x :: project(x).Some? ==> valid(project(x).value)
    requires forall x :: valid(x) ==> project(x) == Some(x)
    ensures var once := Project(Take(rows, limit), project);
            |once| <= limit && (forall i :: 0 <= i < |once| ==> valid(once[i]))
    ensures (|rows| <= limit && forall i :: 0 <= i < |rows| ==> valid(rows[i]))
            <==> Project(Take(rows, limit), project) == rows
    ensures var cut := Take(Project(rows, project), limit);
            |cut| <= limit && (forall i :: 0 <= i < |cut| ==> valid(cut[i]))
    ensures (|rows| <= limit && forall i :: 0 <= i < |rows| ==> valid(rows[i]))
            <==> Take(Project(rows, project), limit) == rows
  {
    ProjectIsShorter(Take(rows, limit), project);
    AllProjected(Take(rows, limit), project, valid);
    AllProjected(rows, project, valid);
    if |rows| <= limit && forall i :: 0 <= i < |rows| ==> valid(rows[i]) {
      FixedStays(rows, project);
    }
  }

  lemma AllProjected<T(!new)>(rows: seq<T>, project: T -> Option<T>, valid: T -> bool)
    requires forall x :: project(x).Some? ==> valid(project(x).value)
    ensures forall k :: 0 <= k < |Project(rows, project)| ==> valid(Project(rows, project)[k])
  {
    forall k | 0 <= k < |Project(rows, project)|
      ensures valid(Project(rows, project)[k])
    {
      var i := ProjectedFrom(rows, project, k);
    }
  }

  lemma NamesAreFixed(g: Grammar, listing: Listing, limit: nat)
    ensures AreNames(g, Identifiers(g, listing, limit), limit)
    ensures AreNames(g, listing, limit) <==> Identifiers(g, listing, limit) == listing
  {
    var valid := (leaf: Leaf) => leaf.Str? && g.named(leaf.text);
    FixedIff(if listing.List? then listing.items else [], Naming(g), valid, limit);
  }

  lemma WordsAreFixed(listing: Listing, allowed: set<string>)
    ensures AreWords(Words(listing, allowed), allowed)
    ensures AreWords(listing, allowed) <==> Words(listing, allowed) == listing
  {
    var items := if listing.List? then listing.items else [];
    var valid := (leaf: Leaf) => Is(leaf, allowed);
    var chosen := Project(Take(items, 8), Wording(allowed));
    FixedIff(items, Wording(allowed), valid, 8);
    UniquesHold(chosen);
    forall i | 0 <= i < |Uniques(chosen)|
      ensures Is(Uniques(chosen)[i], allowed)
    {
      assert Uniques(chosen)[i] in chosen;
      var k :| 0 <= k < |chosen| && chosen[k] == Uniques(chosen)[i];
      assert valid(chosen[k]);
    }
    if AreWords(listing, allowed) { DistinctStays(items); }
  }

  // Leaves that do not pass are kept out, and with `once` so is a value a second time.
  ghost function Passing(valid: Leaf -> bool, once: bool): Rule<Leaf> {
    Rule((leaf: Leaf) => !valid(leaf), (a: Leaf, b: Leaf) => once && a == b)
  }

  ghost predicate Chooses(valid: Leaf -> bool, choose: Leaf -> Option<Leaf>) {
    forall leaf :: choose(leaf) == if valid(leaf) then Some(leaf) else None
  }

  lemma {:induction false} ChosenAreFiltered(items: seq<Leaf>, valid: Leaf -> bool, choose: Leaf -> Option<Leaf>)
    returns (taken: seq<nat>)
    requires Chooses(valid, choose)
    ensures Filters(items, Passing(valid, false), taken, Project(items, choose))
  {
    taken := [];
    if items != [] {
      var n := |items| - 1;
      taken := ChosenAreFiltered(items[..n], valid, choose);
      taken := FilterOneMore(items, Passing(valid, false), taken, Project(items[..n], choose), n);
    }
  }

  lemma UniquesOfProject(items: seq<Leaf>, valid: Leaf -> bool, choose: Leaf -> Option<Leaf>, n: nat)
    requires n + 1 == |items| && Chooses(valid, choose)
    ensures var front := Uniques(Project(items[..n], choose));
            Uniques(Project(items, choose))
            == if !valid(items[n]) || items[n] in front then front else front + [items[n]]
  {
    if valid(items[n]) {
      UniquesOfOneMore(Project(items[..n], choose), items[n]);
    } else {
      assert Project(items[..n], choose) + [] == Project(items[..n], choose);
    }
  }

  lemma {:induction false} UniquesAreFiltered(items: seq<Leaf>, valid: Leaf -> bool, choose: Leaf -> Option<Leaf>)
    returns (taken: seq<nat>)
    requires Chooses(valid, choose)
    ensures Filters(items, Passing(valid, true), taken, Uniques(Project(items, choose)))
  {
    taken := [];
    if items != [] {
      var n := |items| - 1;
      taken := UniquesAreFiltered(items[..n], valid, choose);
      var front := Uniques(Project(items[..n], choose));
      UniquesOfProject(items, valid, choose, n);
      var before := taken;
      taken := FilterOneMore(items, Passing(valid, true), taken, front, n);
      KeptOutByValue(items, Passing(valid, true), before, n);
    }
  }

  // Of a list of names the valid ones are kept, in order, up to the limit.
  lemma NamesAreFirst(g: Grammar, items: seq<Leaf>, limit: nat) returns (taken: seq<nat>)
    ensures FirstFree(items, Passing((leaf: Leaf) => leaf.Str? && g.named(leaf.text), false), limit, taken)
    ensures Identifiers(g, List(items), limit) == List(ItemsAt(items, taken))
  {
    var valid := (leaf: Leaf) => leaf.Str? && g.named(leaf.text);
    taken := ChosenAreFiltered(items, valid, Naming(g));
    taken := FilterCut(items, Passing(valid, false), taken, Project(items, Naming(g)), limit);
  }

  // Of the first eight words the known ones are kept, in order, each once.
  lemma WordsAreFirst(items: seq<Leaf>, allowed: set<string>) returns (taken: seq<nat>)
    ensures var first := Take(items, 8);
            && FirstFree(first, Passing((leaf: Leaf) => Is(leaf, allowed), true), |first| + 1, taken)
            && Words(List(items), allowed) == List(ItemsAt(first, taken))
  {
    taken := UniquesAreFiltered(Take(items, 8), (leaf: Leaf) => Is(leaf, allowed), Wording(allowed));
  }

  // Of an attribute's labels the well-formed ones are kept, in order, each once, up to sixteen, and the
  // loss is noted exactly when another entry is not well formed or there are more.
  lemma RefsAreFirst(items: seq<Leaf>) returns (taken: seq<nat>)
    ensures FirstFree(items, Passing((leaf: Leaf) => IsRef(leaf), true), 16, taken)
    ensures RefList(items) == ItemsAt(items, taken)
    ensures LosesRefs(items) <==> exists i :: 0 <= i < |items| && items[i] !in RefList(items)
  {
    var valid := (leaf: Leaf) => IsRef(leaf);
    var found := Uniques(Project(items, Reffing()));
    taken := UniquesAreFiltered(items, valid, Reffing());
    taken := FilterCut(items, Passing(valid, true), taken, found, 16);
    LostAreMissing(items);
  }

  lemma LostAreMissing(items: seq<Leaf>)
    ensures LosesRefs(items) <==> exists i :: 0 <= i < |items| && items[i] !in RefList(items)
  {
    var valid := Project(items, Reffing());
    var found := Uniques(valid);
    UniquesHold(valid);
    var places := ProjectPlaces(items, Reffing());
    if |found| > MAX_REFS {
      var i := IndexIn(valid, found[MAX_REFS]);
      var k := ProjectedFrom(items, Reffing(), i);
      assert items[k] == found[MAX_REFS] && items[k] !in RefList(items);
    }
    if HasOther(items) {
      var i :| 0 <= i < |items| && !IsRef(items[i]);
      RefsAreRefs(items);
      assert items[i] !in RefList(items);
    }
    if !LosesRefs(items) {
      forall i: nat | i < |items|
        ensures items[i] in RefList(items)
      {
        assert IsRef(items[i]) && i in places;
        var k :| 0 <= k < |places| && places[k] == i;
        assert valid[k] in found && valid[k] == items[i];
      }
    }
  }

  lemma IndexIn(items: seq<Leaf>, leaf: Leaf) returns (k: nat)
    requires leaf in items
    ensures k < |items| && items[k] == leaf
  {
    k :| 0 <= k < |items| && items[k] == leaf;
  }

  lemma RefsAreRefs(items: seq<Leaf>)
    ensures forall leaf :: leaf in RefList(items) ==> IsRef(leaf)
  {
    RefsAreFixed(items);
  }

  /******* Markup *******/

  ghost predicate AreRefs(items: seq<Leaf>) {
    |items| <= 16 && Distinct(items) && forall i :: 0 <= i < |items| ==> IsRef(items[i])
  }

  ghost predicate IsRefRow(row: RefRow, attributes: set<string>) {
    row.attribute in attributes && row.refs.List? && AreRefs(row.refs.items)
  }

  ghost predicate AreLabels(flag: Leaf, refs: Refs, attributes: set<string>) {
    && IsFlag(flag) && !refs.NotADict?
    && (refs.Refs? ==> forall i :: 0 <= i < |refs.rows| ==> IsRefRow(refs.rows[i], attributes))
  }

  lemma RefListIsRefs(items: seq<Leaf>)
    ensures AreRefs(RefList(items))
  {
    var valid := (leaf: Leaf) => IsRef(leaf);
    var found := Project(items, Reffing());
    AllProjected(items, Reffing(), valid);
    UniquesHold(found);
    forall i | 0 <= i < |Uniques(found)|
      ensures IsRef(Uniques(found)[i])
    {
      var k := IndexIn(found, Uniques(found)[i]);
      assert valid(found[k]);
    }
  }

  lemma RefsStay(items: seq<Leaf>)
    requires AreRefs(items)
    ensures RefList(items) == items && !LosesRefs(items)
  {
    FixedStays(items, Reffing());
    DistinctStays(items);
  }

  lemma RefsAreFixed(items: seq<Leaf>)
    ensures AreRefs(RefList(items)) && (AreRefs(items) <==> RefList(items) == items)
    ensures AreRefs(items) ==> !LosesRefs(items)
  {
    RefListIsRefs(items);
    if AreRefs(items) { RefsStay(items); }
  }

  ghost function ValidRefRow(attributes: set<string>): RefRow -> bool {
    (row: RefRow) => IsRefRow(row, attributes)
  }

  lemma RefRowsAreFixed(rows: seq<RefRow>, attributes: set<string>)
    ensures var kept := Project(rows, Attributing(attributes));
            && (forall i :: 0 <= i < |kept| ==> IsRefRow(kept[i], attributes))
            && ((forall i :: 0 <= i < |rows| ==> IsRefRow(rows[i], attributes)) <==> kept == rows)
  {
    forall row: RefRow
      ensures Attributing(attributes)(row).Some? ==> IsRefRow(Attributing(attributes)(row).value, attributes)
      ensures IsRefRow(row, attributes) ==> Attributing(attributes)(row) == Some(row)
    {
      if row.refs.List? { RefsAreFixed(row.refs.items); }
    }
    FixedIff(rows, Attributing(attributes), ValidRefRow(attributes), |rows|);
  }

  lemma LabelsAreFixed(flag: Leaf, refs: Refs, attributes: set<string>)
    ensures AreLabels(MarkupFlag(flag, refs, attributes), MarkupRefs(refs, attributes), attributes)
    ensures AreLabels(flag, refs, attributes)
            <==> MarkupFlag(flag, refs, attributes) == flag && MarkupRefs(refs, attributes) == refs
  {
    if refs.Refs? {
      RefRowsAreFixed(refs.rows, attributes);
      if AreLabels(flag, refs, attributes) {
        forall i | 0 <= i < |refs.rows|
          ensures !LosesRow(refs.rows[i], attributes)
        {
          RefsAreFixed(refs.rows[i].refs.items);
        }
      }
    }
  }

  predicate IsKind(row: KindRow) {
    row.attribute in ATTRIBUTES && Is(row.kind, KINDS)
  }

  predicate AreKinds(kinds: Option<seq<KindRow>>) {
    && kinds.Some? && 1 <= |kinds.value| <= 8
    && forall i :: 0 <= i < |kinds.value| ==> IsKind(kinds.value[i])
  }

  // The shapes name attributes of the row, in the same order.
  ghost predicate IsMarkupRow(row: MarkupRow, allowRefs: bool) {
    && Is(row.tag, MARKUP_TAGS) && AreKinds(row.kinds)
    && IsCount(row.count, 128) && IsCount(row.distinct, 128) && row.distinct.n <= row.count.n
    && (if allowRefs then AreLabels(row.flag, row.refs, AttributesOf(row.kinds.value))
        else row.flag == Missing && row.refs == NoRefs)
    && ShapesOf(row.shapes, row.kinds.value) == row.shapes
  }

  ghost function ValidKind(): KindRow -> bool {
    (row: KindRow) => IsKind(row)
  }

  lemma KindIsFixed(row: KindRow)
    ensures Kinding()(row) == if ValidKind()(row) then Some(row) else None
  {
  }

  lemma KindsAreFixed(kinds: Option<seq<KindRow>>)
    ensures KindsOf(kinds) != [] ==> AreKinds(Some(KindsOf(kinds)))
    ensures kinds.Some? ==> (AreKinds(kinds) <==> KindsOf(kinds) == kinds.value && kinds.value != [])
  {
    forall row
      ensures Kinding()(row) == if ValidKind()(row) then Some(row) else None
    {
      KindIsFixed(row);
    }
    FixedIff(if kinds.Some? then kinds.value else [], Kinding(), ValidKind(), MAX_ROWS);
  }

  lemma RowIsFixed(row: MarkupRow, allowRefs: bool)
    ensures RowOf(row, allowRefs).Some? ==> IsMarkupRow(RowOf(row, allowRefs).value, allowRefs)
    ensures IsMarkupRow(row, allowRefs) ==> RowOf(row, allowRefs) == Some(row)
  {
    var kinds := KindsOf(row.kinds);
    KindsAreFixed(row.kinds);
    LabelsAreFixed(row.flag, row.refs, AttributesOf(kinds));
    ShapesSettle(row.shapes, kinds);
  }

  ghost function ValidRow(allowRefs: bool): MarkupRow -> bool {
    (row: MarkupRow) => IsMarkupRow(row, allowRefs)
  }

  // A row that lost labels is reported for the whole list.
  ghost predicate IsMarkup(markup: Markup, allowRefs: bool) {
    && markup.rows.Some? && |markup.rows.value| <= 8
    && (forall i :: 0 <= i < |markup.rows.value| ==> IsMarkupRow(markup.rows.value[i], allowRefs))
    && IsCount(markup.sampled, 131072) && markup.truncated.Bool?
    && ((exists i :: 0 <= i < |markup.rows.value| && markup.rows.value[i].flag == Bool(true)) ==>
          markup.truncated == Bool(true))
  }

  lemma ValidRowLoses(rows: seq<MarkupRow>, allowRefs: bool)
    requires |rows| <= MAX_ROWS && forall i :: 0 <= i < |rows| ==> IsMarkupRow(rows[i], allowRefs)
    ensures MarkupLoses(rows, allowRefs) <==> exists i :: 0 <= i < |rows| && rows[i].flag == Bool(true)
  {
    forall i | 0 <= i < |rows|
      ensures RowLoses(rows[i], allowRefs) <==> rows[i].flag == Bool(true)
    {
      RowIsFixed(rows[i], allowRefs);
    }
  }

  lemma MarkupRowsAreFixed(rows: seq<MarkupRow>, allowRefs: bool)
    ensures var once := Project(Take(rows, MAX_ROWS), Rowing(allowRefs));
            && |once| <= MAX_ROWS && (forall i :: 0 <= i < |once| ==> IsMarkupRow(once[i], allowRefs))
            && (MarkupLoses(once, allowRefs) ==> MarkupLoses(rows, allowRefs))
            && (|rows| <= MAX_ROWS && (forall i :: 0 <= i < |rows| ==> IsMarkupRow(rows[i], allowRefs))
                <==> once == rows)
  {
    forall row: MarkupRow
      ensures Rowing(allowRefs)(row).Some? ==> IsMarkupRow(Rowing(allowRefs)(row).value, allowRefs)
      ensures IsMarkupRow(row, allowRefs) ==> Rowing(allowRefs)(row) == Some(row)
    {
      RowIsFixed(row, allowRefs);
    }
    FixedIff(rows, Rowing(allowRefs), ValidRow(allowRefs), MAX_ROWS);
    assert Settles(Rowing(allowRefs));
    LossIsKept(rows, allowRefs);
  }

  lemma MarkupIsFixed(markup: Markup, allowRefs: bool)
    ensures IsMarkup(MarkupOf(markup, allowRefs), allowRefs)
    ensures IsMarkup(markup, allowRefs) <==> MarkupOf(markup, allowRefs) == markup
  {
    var rows := RowsIn(markup.rows);
    MarkupRowsAreFixed(rows, allowRefs);
    ValidRowLoses(Project(Take(rows, MAX_ROWS), Rowing(allowRefs)), allowRefs);
    if IsMarkup(markup, allowRefs) { ValidRowLoses(rows, allowRefs); }
  }

  ghost predicate HasKind(row: MarkupRow) {
    row.kinds.Some? && exists k :: 0 <= k < |row.kinds.value| && IsKind(row.kinds.value[k])
  }

  // All labels of an attribute the row shows, none of them cut.
  ghost predicate KeepsRefs(row: RefRow, attributes: set<string>) {
    && row.attribute in attributes && row.refs.List?
    && forall i :: 0 <= i < |row.refs.items| ==> row.refs.items[i] in RefList(row.refs.items)
  }

  // Anything but a missing or lowered flag reports a loss.
  predicate IsQuiet(flag: Leaf) {
    flag == Missing || flag == Bool(false)
  }

  // A row without labels, or one that is shown with all of them and reports no loss of its own.
  ghost predicate KeepsLabels(row: MarkupRow, shown: bool) {
    || (row.flag == Missing && row.refs == NoRefs)
    || (shown && IsQuiet(row.flag) && KeepsAllRefs(row.refs, AttributesOf(KindsOf(row.kinds))))
  }

  ghost predicate KeepsAllRefs(refs: Refs, attributes: set<string>) {
    !refs.NotADict? && (refs.Refs? ==> forall k :: 0 <= k < |refs.rows| ==> KeepsRefs(refs.rows[k], attributes))
  }

  // Shown are those of the first eight rows that have a known tag and a valid kind.
  ghost predicate IsShown(rows: seq<MarkupRow>, i: nat)
    requires i < |rows|
  {
    i < 8 && Is(rows[i].tag, MARKUP_TAGS) && HasKind(rows[i])
  }

  lemma KindIsFound(row: MarkupRow)
    ensures KindsOf(row.kinds) != [] <==> HasKind(row)
  {
    if row.kinds.Some? {
      var places := ProjectPlaces(row.kinds.value, Kinding());
      if HasKind(row) {
        var k :| 0 <= k < |row.kinds.value| && IsKind(row.kinds.value[k]);
        assert k in places;
      }
      if KindsOf(row.kinds) != [] {
        var i := ProjectedFrom(row.kinds.value, Kinding(), 0);
        assert IsKind(row.kinds.value[i]);
      }
    }
  }

  lemma RefRowLoses(row: RefRow, attributes: set<string>)
    ensures LosesRow(row, attributes) <==> !KeepsRefs(row, attributes)
  {
    if row.refs.List? { LostAreMissing(row.refs.items); }
  }

  lemma FlagIsLoss(flag: Leaf, refs: Refs, attributes: set<string>)
    ensures MarkupFlag(flag, refs, attributes) == Bool(true)
            <==> !IsQuiet(flag) || !KeepsAllRefs(refs, attributes)
  {
    if refs.Refs? {
      forall k | 0 <= k < |refs.rows|
        ensures LosesRow(refs.rows[k], attributes) <==> !KeepsRefs(refs.rows[k], attributes)
      {
        RefRowLoses(refs.rows[k], attributes);
      }
    }
  }

  lemma RowLosesExactly(rows: seq<MarkupRow>, i: nat)
    requires i < |rows|
    ensures (if i < MAX_ROWS then RowLoses(rows[i], true) else HasRefs(rows[i], true))
            <==> !KeepsLabels(rows[i], IsShown(rows, i))
  {
    KindIsFound(rows[i]);
    FlagIsLoss(rows[i].flag, rows[i].refs, AttributesOf(KindsOf(rows[i].kinds)));
  }

  // The markup is marked exactly when it came so or when a row does not keep its labels.
  lemma LossIsNotedExactly(markup: Markup)
    ensures var rows := RowsIn(markup.rows);
            MarkupOf(markup, true).truncated == Bool(true)
            <==> markup.truncated == Bool(true)
                 || exists i: nat :: i < |rows| && !KeepsLabels(rows[i], IsShown(rows, i))
  {
    var rows := RowsIn(markup.rows);
    forall i: nat | i < |rows|
      ensures (if i < MAX_ROWS then RowLoses(rows[i], true) else HasRefs(rows[i], true))
              <==> !KeepsLabels(rows[i], IsShown(rows, i))
    {
      RowLosesExactly(rows, i);
    }
  }

  /******* Response structure *******/

  predicate IsField(g: Grammar, row: FieldRow) {
    row.path.Str? && |row.path.text| <= 160 && g.path(row.path.text) && Is(row.kind, TYPES)
  }

  predicate IsTag(g: Grammar, row: TagRow) {
    Is(row.tag, TAGS) && AreNames(g, row.attributes, 16)
  }

  predicate IsInline(g: Grammar, row: InlineRow) {
    row.name.Str? && g.named(row.name.text) && Is(row.kind, TYPES) && Is(row.syntax, {"quoted", "bare"})
  }

  predicate IsScript(row: ScriptRow) {
    Is(row.kind, RESOURCES) && Is(row.role, ROLES) && Is(row.location, LOCATIONS)
  }

  ghost predicate IsGraphql(graphql: Graphql) {
    && IsCount(graphql.errorCount, 16) && AreWords(graphql.codes, CODES) && AreWords(graphql.kinds, ERRORS)
    && Is(graphql.dataState, STATES) && AreWords(graphql.nullRoots, ROOTS)
  }

  // A list of at most so many rows, all of which pass.
  predicate AreRows<T>(rows: Option<seq<T>>, limit: nat, valid: T -> bool) {
    rows.Some? && |rows.value| <= limit && forall i :: 0 <= i < |rows.value| ==> valid(rows.value[i])
  }

  function Fields(g: Grammar): FieldRow -> bool { (row: FieldRow) => IsField(g, row) }

  function Tags(g: Grammar): TagRow -> bool { (row: TagRow) => IsTag(g, row) }

  function Inlines(g: Grammar): InlineRow -> bool { (row: InlineRow) => IsInline(g, row) }

  function Scripts(): ScriptRow -> bool { (row: ScriptRow) => IsScript(row) }

  // Only what its kind of structure has.
  ghost predicate IsResponse(g: Grammar, r: Response, allowRefs: bool) {
    r.Response? ==>
      && Is(r.kind, {"json", "html", "text", "binary"})
      && (if r.kind == Str("json") then AreRows(r.fields, 16, Fields(g)) else r.fields.None? && r.graphql.None?)
      && (r.graphql.Some? ==> IsGraphql(r.graphql.value))
      && (if r.kind == Str("html") then AreRows(r.tags, 8, Tags(g)) && AreNames(g, r.variables, 16)
          else r.tags.None? && r.variables == NoList && r.player.None? && r.inline.None? && r.scripts.None?)
      && (r.player.Some? ==> IsMarkup(r.player.value, allowRefs))
      && (r.inline.Some? ==> AreRows(r.inline, 12, Inlines(g)))
      && (r.scripts.Some? ==> AreRows(r.scripts, 8, Scripts()))
  }

  lemma RowsAreFixed<T(!new)>(rows: Option<seq<T>>, project: T -> Option<T>, valid: T -> bool, limit: nat)
    requires forall x :: project(x).Some? ==> valid(project(x).value)
    requires forall x :: valid(x) ==> project(x) == Some(x)
    ensures AreRows(Some(Project(Cut(rows, limit), project)), limit, valid)
    ensures rows.Some? ==> (AreRows(rows, limit, valid) <==> Project(Cut(rows, limit), project) == rows.value)
  {
    FixedIff(if rows.Some? then rows.value else [], project, valid, limit);
  }

  lemma GraphqlIsFixed(graphql: Graphql)
    ensures IsGraphql(GraphqlOf(graphql)) && (IsGraphql(graphql) <==> GraphqlOf(graphql) == graphql)
  {
    WordsAreFixed(graphql.codes, CODES);
    WordsAreFixed(graphql.kinds, ERRORS);
    WordsAreFixed(graphql.nullRoots, ROOTS);
  }

  lemma JsonIsFixed(g: Grammar, r: Response, allowRefs: bool)
    requires r.Response? && r.kind == Str("json")
    ensures IsResponse(g, ResponseOf(g, r, allowRefs), allowRefs)
    ensures IsResponse(g, r, allowRefs) <==> ResponseOf(g, r, allowRefs) == r
  {
    RowsAreFixed(r.fields, Fielding(g), Fields(g), 16);
    if r.graphql.Some? { GraphqlIsFixed(r.graphql.value); }
  }

  lemma TagsAreFixed(g: Grammar, tags: Option<seq<TagRow>>)
    ensures AreRows(Some(Project(Cut(tags, 8), Tagging(g))), 8, Tags(g))
    ensures tags.Some? ==> (AreRows(tags, 8, Tags(g)) <==> Project(Cut(tags, 8), Tagging(g)) == tags.value)
  {
    forall row: TagRow
      ensures Tagging(g)(row).Some? ==> Tags(g)(Tagging(g)(row).value)
      ensures Tags(g)(row) ==> Tagging(g)(row) == Some(row)
    {
      NamesAreFixed(g, row.attributes, 16);
    }
    RowsAreFixed(tags, Tagging(g), Tags(g), 8);
  }

  lemma HtmlIsFixed(g: Grammar, r: Response, allowRefs: bool)
    requires r.Response? && r.kind == Str("html")
    ensures IsResponse(g, ResponseOf(g, r, allowRefs), allowRefs)
    ensures IsResponse(g, r, allowRefs) <==> ResponseOf(g, r, allowRefs) == r
  {
    TagsAreFixed(g, r.tags);
    NamesAreFixed(g, r.variables, 16);
    if r.player.Some? { MarkupIsFixed(r.player.value, allowRefs); }
    RowsAreFixed(r.inline, Inlining(g), Inlines(g), 12);
    RowsAreFixed(r.scripts, Scripting(), Scripts(), 8);
  }

  lemma ResponseIsFixed(g: Grammar, r: Response, allowRefs: bool)
    ensures IsResponse(g, ResponseOf(g, r, allowRefs), allowRefs)
    ensures IsResponse(g, r, allowRefs) <==> ResponseOf(g, r, allowRefs) == r
  {
    if r.Response? && r.kind == Str("json") {
      JsonIsFixed(g, r, allowRefs);
    } else if r.Response? && r.kind == Str("html") {
      HtmlIsFixed(g, r, allowRefs);
    }
  }

  /******* Events *******/

  predicate HasPlainLeaves(e: Event)
    requires e.Event?
  {
    && e.fixture.Str? && |e.fixture.text| <= 120 && AllPrintable(e.fixture.text)
    && e.host.Str? && (e.host.text == "" || IsHost(e.host.text))
    && e.stage.Str? && (e.stage.text == "" || IsStage(e.stage.text))
    && IsStatus(e.status) && IsCount(e.announced, 256) && (e.error == Missing || Is(e.error, ERROR_CODES))
  }

  ghost predicate HasStructure(g: Grammar, e: Event)
    requires e.Event?
  {
    AreNames(g, e.functions, 8) && IsAddress(e.address) && IsResponse(g, e.response, IsScope(e.address.scope))
  }

  predicate HasObservations(e: Event)
    requires e.Event?
  {
    && (e.http.Some? ==> IsHttp(e.http.value)) && (e.reader.Some? ==> IsReader(e.reader.value))
    && (e.probe.Some? ==> IsScope(e.address.scope) && IsProbe(e.probe.value))
    && (e.media.Some? ==> IsMedia(e.media.value, 65536))
  }

  ghost predicate IsEvent(g: Grammar, e: Event) {
    e.Event? && HasPlainLeaves(e) && HasStructure(g, e) && HasObservations(e)
  }

  lemma FixtureIsFixed(leaf: Leaf)
    ensures var out := Fixture(leaf); out.Str? && |out.text| <= 120 && AllPrintable(out.text)
    ensures leaf.Str? && |leaf.text| <= 120 && AllPrintable(leaf.text) <==> Fixture(leaf) == leaf
  {
    PrintableHolds(TextOf(leaf));
  }

  lemma HostIsFixed(leaf: Leaf)
    ensures var out := Host(leaf); out.Str? && (out.text == "" || IsHost(out.text))
    ensures leaf.Str? && (leaf.text == "" || IsHost(leaf.text)) <==> Host(leaf) == leaf
    ensures var out := Stage(leaf); out.Str? && (out.text == "" || IsStage(out.text))
    ensures leaf.Str? && (leaf.text == "" || IsStage(leaf.text)) <==> Stage(leaf) == leaf
  {
    if leaf.Str? && IsHost(leaf.text) { LowerKeepsHosts(leaf.text); }
    assert Lower("") == "";
  }

  lemma LeavesOfEvent(g: Grammar, e: Event)
    requires e.Event?
    ensures var out := EventOf(g, e);
            && HasPlainLeaves(out)
            && (HasPlainLeaves(e) <==>
                  out.fixture == e.fixture && out.host == e.host && out.stage == e.stage && out.status == e.status
                  && out.announced == e.announced && out.error == e.error)
  {
    FixtureIsFixed(e.fixture);
    HostIsFixed(e.host);
    HostIsFixed(e.stage);
  }

  lemma StructureOfEvent(g: Grammar, e: Event)
    requires e.Event?
    ensures var out := EventOf(g, e);
            && HasStructure(g, out)
            && (HasStructure(g, e) <==>
                  out.functions == e.functions && out.address == e.address && out.response == e.response)
  {
    NamesAreFixed(g, e.functions, 8);
    AddressIsFixed(e.address);
    ResponseIsFixed(g, e.response, IsScope(e.address.scope));
  }

  lemma ObservationsOfEvent(g: Grammar, e: Event)
    requires e.Event?
    ensures var out := EventOf(g, e);
            && HasObservations(out)
            && (HasObservations(e) <==>
                  out.http == e.http && out.reader == e.reader && out.probe == e.probe && out.media == e.media)
  {
    HttpIsFixed(e.http);
    if e.reader.Some? { ReaderIsFixed(e.reader.value); }
    MediaIsFixed(e.media, 65536);
    ProbeIsFixed(e.probe);
  }

  // Main result on one event: what comes out is well formed, and a well-formed event, and no other,
  // comes out as it is.
  lemma EventIsFixedExactly(g: Grammar, e: Event)
    requires e.Event?
    ensures IsEvent(g, EventOf(g, e))
    ensures IsEvent(g, e) <==> EventOf(g, e) == e
  {
    LeavesOfEvent(g, e);
    StructureOfEvent(g, e);
    ObservationsOfEvent(g, e);
  }

  /******* The ranking, told by places *******/

  // The places below n that pass, in order.
  ghost function Where(n: nat, which: nat -> bool): (places: seq<nat>)
    ensures Increasing(places, n) && forall i: nat :: i in places <==> i < n && which(i)
  {
    if n == 0 then []
    else if which(n - 1) then Where(n - 1, which) + [n - 1]
    else Where(n - 1, which)
  }

  // The items at those places.
  ghost function Picked<T>(items: seq<T>, n: nat, which: nat -> bool): seq<T>
    requires n <= |items|
  {
    if n == 0 then []
    else if which(n - 1) then Picked(items, n - 1, which) + [items[n - 1]]
    else Picked(items, n - 1, which)
  }

  lemma OneMorePlace<T>(items: seq<T>, places: seq<nat>, n: nat)
    requires n < |items| && Increasing(places, n)
    ensures Increasing(places + [n], |items|)
    ensures ItemsAt(items, places + [n]) == ItemsAt(items, places) + [items[n]]
  {
  }

  ghost predicate PicksThere<T>(items: seq<T>, picked: seq<T>, places: seq<nat>) {
    Increasing(places, |items|) && picked == ItemsAt(items, places)
  }

  lemma PickOneMore<T>(items: seq<T>, n: nat, picked: seq<T>, places: seq<nat>)
    requires n < |items| && PicksThere(items, picked, places) && Increasing(places, n)
    ensures PicksThere(items, picked + [items[n]], places + [n])
  {
    OneMorePlace(items, places, n);
  }

  lemma {:induction false} PickedAreThere<T>(items: seq<T>, n: nat, which: nat -> bool)
    requires n <= |items|
    ensures PicksThere(items, Picked(items, n, which), Where(n, which))
  {
    if n > 0 {
      PickedAreThere(items, n - 1, which);
      if which(n - 1) { PickOneMore(items, n - 1, Picked(items, n - 1, which), Where(n - 1, which)); }
    }
  }

  lemma {:induction false} PickedSame<T>(items: seq<T>, n: nat, a: nat -> bool, b: nat -> bool)
    requires n <= |items| && forall i: nat :: i < n ==> (a(i) <==> b(i))
    ensures Picked(items, n, a) == Picked(items, n, b)
  {
    if n > 0 { PickedSame(items, n - 1, a, b); }
  }

  // The events at these places.
  ghost function EventsAt(seen: seq<Seen>, places: seq<nat>): seq<Event>
    requires AreIn(seen, places)
  {
    seq(|places|, k requires 0 <= k < |places| => seen[places[k]].event)
  }

  ghost predicate AreIn(seen: seq<Seen>, places: seq<nat>) {
    forall k :: 0 <= k < |places| ==> places[k] < |seen|
  }

  // A fixture and stage not seen before.
  ghost predicate IsFirst(seen: seq<Seen>, i: nat)
    requires i < |seen|
  {
    forall j :: 0 <= j < i ==> Phase(seen[j].event) != Phase(seen[i].event)
  }

  ghost predicate IsNew(seen: seq<Seen>, i: nat)
    requires i < |seen|
  {
    forall j :: 0 <= j < i ==> seen[j].shape != seen[i].shape
  }

  // First of its phase, then with a control probe, then a new shape, then a repeat.
  ghost function Class(seen: seq<Seen>, i: nat): nat
    requires i < |seen|
  {
    if IsFirst(seen, i) then 0
    else if HasProbe(seen[i].event) then (if IsNew(seen, i) then 1 else 2)
    else if IsNew(seen, i) then 3 else 4
  }

  ghost function RankAt(seen: seq<Seen>, rank: Rank): nat -> bool {
    (i: nat) => i < |seen| && RankOf(seen[..i], seen[i]) == rank
  }

  ghost function InClass(seen: seq<Seen>, class_: nat): nat -> bool {
    (i: nat) => i < |seen| && Class(seen, i) == class_
  }

  lemma RankByPlaces(seen: seq<Seen>, i: nat)
    requires i < |seen|
    ensures RankOf(seen[..i], seen[i])
            == if IsFirst(seen, i) then First else if IsNew(seen, i) then NewShape else Repeat
  {
    var before := seen[..i];
    if Phase(seen[i].event) in Phases(before) {
      var s :| s in before && Phase(s.event) == Phase(seen[i].event);
      var j :| 0 <= j < i && seen[j] == s;
    }
    if seen[i].shape in Shapes(before) {
      var s :| s in before && s.shape == seen[i].shape;
      var j :| 0 <= j < i && seen[j] == s;
    }
    assert forall j :: 0 <= j < i ==> seen[j] in before;
  }

  lemma {:induction false} ProbesOfTwo(a: seq<Event>, b: seq<Event>, wanted: bool)
    ensures WithProbe(a + b, wanted) == WithProbe(a, wanted) + WithProbe(b, wanted)
  {
    if b == [] {
      assert a + b == a;
    } else {
      assert (a + b)[..|a + b| - 1] == a + b[..|b| - 1];
      ProbesOfTwo(a, b[..|b| - 1], wanted);
    }
  }

  lemma ProbesOfOneMore(events: seq<Event>, last: Event, wanted: bool)
    ensures WithProbe(events + [last], wanted)
            == WithProbe(events, wanted) + if HasProbe(last) == wanted then [last] else []
  {
    assert (events + [last])[..|events|] == events;
  }

  ghost function Probed(seen: seq<Seen>, which: nat -> bool, wanted: bool): nat -> bool {
    (i: nat) => i < |seen| && which(i) && HasProbe(seen[i].event) == wanted
  }

  lemma {:induction false} StepsArePicked<T>(items: seq<T>, n: nat, which: nat -> bool, part: nat -> seq<T>)
    requires n <= |items| && part(0) == []
    requires forall i: nat {:trigger which(i)} :: i < n ==> part(i + 1) == part(i) + if which(i) then [items[i]] else []
    ensures part(n) == Picked(items, n, which)
  {
    if n > 0 {
      StepsArePicked(items, n - 1, which, part);
      assert which(n - 1) || !which(n - 1);
    }
  }

  ghost function RankedUpTo(seen: seq<Seen>, rank: Rank): nat -> seq<Event> {
    (i: nat) => Ranked(if i <= |seen| then seen[..i] else seen, rank)
  }

  lemma RankedUpToIs(seen: seq<Seen>, rank: Rank, n: nat)
    requires n <= |seen|
    ensures RankedUpTo(seen, rank)(n) == Ranked(seen[..n], rank)
  {
  }

  lemma RankAtIs(seen: seq<Seen>, rank: Rank, n: nat)
    requires n < |seen|
    ensures RankAt(seen, rank)(n) <==> RankOf(seen[..n], seen[n]) == rank
  {
  }

  lemma RankedStep(seen: seq<Seen>, rank: Rank, n: nat)
    requires n < |seen|
    ensures RankedUpTo(seen, rank)(n + 1)
            == RankedUpTo(seen, rank)(n) + if RankAt(seen, rank)(n) then [seen[n].event] else []
  {
    var front, last := seen[..n], seen[n];
    RankedUpToIs(seen, rank, n);
    RankedUpToIs(seen, rank, n + 1);
    RankAtIs(seen, rank, n);
    RankedOneMore(front, last, rank);
    OneMoreItem(seen, n);
  }

  lemma RankedEnds(seen: seq<Seen>, rank: Rank)
    ensures RankedUpTo(seen, rank)(0) == [] && RankedUpTo(seen, rank)(|seen|) == Ranked(seen, rank)
  {
    assert seen[..|seen|] == seen && seen[..0] == [];
  }

  lemma RankedArePicked(seen: seq<Seen>, rank: Rank)
    ensures Ranked(seen, rank) == Picked(EventsIn(seen), |seen|, RankAt(seen, rank))
  {
    var events, part, which := EventsIn(seen), RankedUpTo(seen, rank), RankAt(seen, rank);
    forall i: nat | i < |seen|
      ensures part(i + 1) == part(i) + if which(i) then [events[i]] else []
    {
      RankedStep(seen, rank, i);
    }
    RankedEnds(seen, rank);
    StepsArePicked(events, |seen|, which, part);
  }

  lemma {:induction false} ProbesArePicked(seen: seq<Seen>, which: nat -> bool, wanted: bool, events: seq<Event>,
                                           n: nat)
    requires n <= |seen| && events == EventsIn(seen)
    ensures WithProbe(Picked(events, n, which), wanted) == Picked(events, n, Probed(seen, which, wanted))
  {
    if n > 0 {
      ProbesArePicked(seen, which, wanted, events, n - 1);
      var front := Picked(events, n - 1, which);
      ProbesOfOneMore(front, events[n - 1], wanted);
      assert front + [] == front;
    }
  }

  lemma EventsAreThere(seen: seq<Seen>, places: seq<nat>)
    requires Increasing(places, |seen|)
    ensures AreIn(seen, places) && ItemsAt(EventsIn(seen), places) == EventsAt(seen, places)
  {
  }

  lemma ClassIsPicked(seen: seq<Seen>, which: nat -> bool, same: nat -> bool, out: seq<Event>)
    requires out == Picked(EventsIn(seen), |seen|, which)
    requires forall i: nat :: i < |seen| ==> (which(i) <==> same(i))
    ensures var places := Where(|seen|, same); AreIn(seen, places) && out == EventsAt(seen, places)
  {
    PickedSame(EventsIn(seen), |seen|, which, same);
    PickedAreThere(EventsIn(seen), |seen|, same);
    EventsAreThere(seen, Where(|seen|, same));
  }

  lemma FirstByPlaces(seen: seq<Seen>)
    ensures var places := Where(|seen|, InClass(seen, 0));
            AreIn(seen, places) && Ranked(seen, First) == EventsAt(seen, places)
  {
    RankedArePicked(seen, First);
    forall i: nat | i < |seen|
      ensures RankAt(seen, First)(i) <==> InClass(seen, 0)(i)
    {
      RankByPlaces(seen, i);
    }
    ClassIsPicked(seen, RankAt(seen, First), InClass(seen, 0), Ranked(seen, First));
  }

  lemma ClassOfOther(seen: seq<Seen>, rank: Rank, wanted: bool, class_: nat, i: nat)
    requires i < |seen| && rank != First
    requires class_ == (if wanted then 1 else 3) + (if rank == NewShape then 0 else 1)
    ensures Probed(seen, RankAt(seen, rank), wanted)(i) <==> InClass(seen, class_)(i)
  {
    RankByPlaces(seen, i);
  }

  lemma OthersByPlaces(seen: seq<Seen>, rank: Rank, wanted: bool, class_: nat)
    requires rank != First
    requires class_ == (if wanted then 1 else 3) + (if rank == NewShape then 0 else 1)
    ensures var places := Where(|seen|, InClass(seen, class_));
            AreIn(seen, places) && WithProbe(Ranked(seen, rank), wanted) == EventsAt(seen, places)
  {
    RankedArePicked(seen, rank);
    ProbesArePicked(seen, RankAt(seen, rank), wanted, EventsIn(seen), |seen|);
    forall i: nat | i < |seen|
      ensures Probed(seen, RankAt(seen, rank), wanted)(i) <==> InClass(seen, class_)(i)
    {
      ClassOfOther(seen, rank, wanted, class_, i);
    }
    ClassIsPicked(seen, Probed(seen, RankAt(seen, rank), wanted), InClass(seen, class_),
                  WithProbe(Ranked(seen, rank), wanted));
  }

  lemma EventsAtBoth(seen: seq<Seen>, a: seq<nat>, b: seq<nat>)
    requires AreIn(seen, a) && AreIn(seen, b)
    ensures AreIn(seen, a + b) && EventsAt(seen, a + b) == EventsAt(seen, a) + EventsAt(seen, b)
  {
  }

  // Places in order of their class, and within a class as they are.
  ghost predicate ByClass(seen: seq<Seen>, places: seq<nat>) {
    && AreIn(seen, places)
    && (forall k, l :: 0 <= k < l < |places| ==>
          Class(seen, places[k]) < Class(seen, places[l])
          || (Class(seen, places[k]) == Class(seen, places[l]) && places[k] < places[l]))
  }

  lemma OneClass(seen: seq<Seen>, class_: nat)
    ensures var places := Where(|seen|, InClass(seen, class_));
            ByClass(seen, places) && forall k :: 0 <= k < |places| ==> Class(seen, places[k]) == class_
  {
    var places := Where(|seen|, InClass(seen, class_));
    assert forall k :: 0 <= k < |places| ==> places[k] in places;
  }

  lemma JoinClasses(seen: seq<Seen>, a: seq<nat>, b: seq<nat>, least: nat)
    requires ByClass(seen, a) && ByClass(seen, b)
    requires forall k :: 0 <= k < |a| ==> Class(seen, a[k]) < least
    requires forall k :: 0 <= k < |b| ==> Class(seen, b[k]) >= least
    ensures ByClass(seen, a + b)
  {
  }

  // The places of all events, class by class.
  ghost function AllClasses(seen: seq<Seen>): seq<nat> {
    var n := |seen|;
    Where(n, InClass(seen, 0)) + (Where(n, InClass(seen, 1)) + Where(n, InClass(seen, 2)))
    + (Where(n, InClass(seen, 3)) + Where(n, InClass(seen, 4)))
  }

  // The places of two classes, one behind the other.
  lemma TwoClasses(seen: seq<Seen>, class_: nat)
    ensures var both := Where(|seen|, InClass(seen, class_)) + Where(|seen|, InClass(seen, class_ + 1));
            ByClass(seen, both) && forall k :: 0 <= k < |both| ==> class_ <= Class(seen, both[k]) < class_ + 2
  {
    OneClass(seen, class_);
    OneClass(seen, class_ + 1);
    JoinClasses(seen, Where(|seen|, InClass(seen, class_)), Where(|seen|, InClass(seen, class_ + 1)), class_ + 1);
  }

  lemma ClassesAreOrdered(seen: seq<Seen>)
    ensures ByClass(seen, AllClasses(seen))
  {
    var n := |seen|;
    var first := Where(n, InClass(seen, 0));
    var probed := Where(n, InClass(seen, 1)) + Where(n, InClass(seen, 2));
    var others := Where(n, InClass(seen, 3)) + Where(n, InClass(seen, 4));
    OneClass(seen, 0);
    TwoClasses(seen, 1);
    TwoClasses(seen, 3);
    JoinClasses(seen, first, probed, 1);
    JoinClasses(seen, first + probed, others, 3);
  }

  lemma EveryPlaceHasAClass(seen: seq<Seen>, i: nat)
    requires i < |seen|
    ensures i in AllClasses(seen)
  {
    assert InClass(seen, Class(seen, i))(i);
    assert i in Where(|seen|, InClass(seen, Class(seen, i)));
  }

  // Main result on the ranking: all events, class by class, in each class as they came.
  lemma OrderIsByClass(seen: seq<Seen>) returns (places: seq<nat>)
    ensures ByClass(seen, places) && (forall i: nat :: i < |seen| ==> i in places)
    ensures Order(seen) == EventsAt(seen, places)
  {
    places := AllClasses(seen);
    ClassesAreOrdered(seen);
    forall i: nat | i < |seen|
      ensures i in places
    {
      EveryPlaceHasAClass(seen, i);
    }
    OrderByPlaces(seen);
  }

  lemma OrderByPlaces(seen: seq<Seen>)
    requires ByClass(seen, AllClasses(seen))
    ensures Order(seen) == EventsAt(seen, AllClasses(seen))
  {
    var n := |seen|;
    FirstByPlaces(seen);
    OthersByPlaces(seen, NewShape, true, 1);
    OthersByPlaces(seen, Repeat, true, 2);
    OthersByPlaces(seen, NewShape, false, 3);
    OthersByPlaces(seen, Repeat, false, 4);
    ProbesOfTwo(Ranked(seen, NewShape), Ranked(seen, Repeat), true);
    ProbesOfTwo(Ranked(seen, NewShape), Ranked(seen, Repeat), false);
    EventsAtAll(seen, Where(n, InClass(seen, 0)), Where(n, InClass(seen, 1)), Where(n, InClass(seen, 2)),
                Where(n, InClass(seen, 3)), Where(n, InClass(seen, 4)));
  }

  lemma EventsAtAll(seen: seq<Seen>, a: seq<nat>, b: seq<nat>, c: seq<nat>, d: seq<nat>, e: seq<nat>)
    requires AreIn(seen, a) && AreIn(seen, b) && AreIn(seen, c) && AreIn(seen, d) && AreIn(seen, e)
    ensures AreIn(seen, a + (b + c) + (d + e))
    ensures EventsAt(seen, a + (b + c) + (d + e))
            == EventsAt(seen, a) + (EventsAt(seen, b) + EventsAt(seen, c)) + (EventsAt(seen, d) + EventsAt(seen, e))
  {
    EventsAtBoth(seen, b, c);
    EventsAtBoth(seen, d, e);
    EventsAtBoth(seen, a, b + c);
    EventsAtBoth(seen, a + (b + c), d + e);
  }

  // The scopes of these events.
  ghost function ScopesOf(events: seq<Event>): set<Leaf> {
    set e | e in events && e.Event? && IsScope(e.address.scope) :: e.address.scope
  }

  // Marked as truncated if its scope lost an event.
  ghost predicate MarkedFor(out: Event, event: Event, lost: set<Leaf>) {
    if event.Event? && event.address.scope in lost
    then out == event.(address := event.address.(traceTruncated := Bool(true)))
    else out == event
  }

  // An event is marked exactly when one of its scope was left out, behind the twelfth entry or behind
  // the eighth event kept.
  lemma MarkedExactly(g: Grammar, values: seq<Event>)
    ensures var order, out := Kept(g, values), Evidence(g, values);
            var lost := ScopesOf(Beyond(values, 12) + Beyond(order, 8));
            |out| == |Take(order, 8)| && forall i :: 0 <= i < |out| ==> MarkedFor(out[i], order[i], lost)
  {
    LostScopes(Beyond(values, 12), Beyond(Kept(g, values), 8));
  }

  // What is kept of a trace: of its first twelve entries the events, projected; if there are more than
  // eight, the first eight of their ranking.
  lemma TraceIsKept(g: Grammar, values: seq<Event>) returns (window: seq<nat>, places: seq<nat>)
    ensures ProjectsAt(Take(values, 12), Seeing(g), window, Window(g, values))
    ensures var seen := Window(g, values); ByClass(seen, places) && forall i: nat :: i < |seen| ==> i in places
    ensures var seen := Window(g, values);
            Kept(g, values) == if |seen| <= 8 then EventsIn(seen) else EventsAt(seen, places)
  {
    window := ProjectPlaces(Take(values, WINDOW), Seeing(g));
    places := OrderIsByClass(Window(g, values));
  }

  lemma LostScopes(a: seq<Event>, b: seq<Event>)
    ensures Scopes(a) + Scopes(b) == ScopesOf(a + b)
  {
    forall e | e in a + b && e.Event? && IsScope(e.address.scope)
      ensures e.address.scope in Scopes(a) + Scopes(b)
    {
      assert Scope(e) == e.address.scope && (e in a || e in b);
    }
    forall e | e in a + b && IsScope(Scope(e))
      ensures Scope(e) in ScopesOf(a + b)
    {
    }
  }
}
