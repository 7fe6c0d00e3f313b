/**
 The lexicographic order Python sorts strings by.
 */
module StringOrder {

  predicate Less(a: string, b: string) {
    b != "" && (a == "" || a[0] < b[0] || (a[0] == b[0] && Less(a[1..], b[1..])))
  }

  lemma {:induction false} Trichotomy(a: string, b: string)
    ensures Less(a, b) || a == b || Less(b, a)
    ensures !(Less(a, b) && Less(b, a))
  {
    if a != "" && b != "" && a[0] == b[0] {
      Trichotomy(a[1..], b[1..]);
      if a[1..] == b[1..] {
        assert a == [a[0]] + a[1..] == [b[0]] + b[1..] == b;
      }
    }
  }

  lemma {:induction false} Transitive(a: string, b: string, c: string)
    requires Less(a, b) && Less(b, c)
    ensures Less(a, c)
  {
    if a != "" && a[0] == b[0] && b[0] == c[0] {
      Transitive(a[1..], b[1..], c[1..]);
    }
  }
}

/**
 Merging one page of guidance into the durable coverage of the same source: prior rows
 of providers the page did not refresh, candidate rows of those it did.
 */
module GuidanceMerge {
  import opened Basics
  import StringOrder

  datatype Kind = Advisor | Force | Diagnostics

  datatype Row = Row(provider: string, profile: string, experiment: string, mutation: string, context: string,
                     confidence: real, payload: string)

  datatype Document = Document(sourceSha: string, brainSha: string, rows: seq<Row>, payload: string, providerCount: nat)

  // The identity of a row, as three strings.
  function Identity(row: Row, kind: Kind): (string, string, string) {
    match kind
    case Advisor => (row.provider, row.profile, row.experiment)
    case Force => (row.provider, row.mutation, row.context)
    case Diagnostics => (row.provider, "", "")
  }

  // Providers ascending, confidence descending, then the rest of the identity.
  predicate Before(a: Row, b: Row, kind: Kind) {
    var (p, x, y) := Identity(a, kind);
    var (q, u, v) := Identity(b, kind);
    || StringOrder.Less(p, q)
    || (p == q && (a.confidence > b.confidence
                   || (a.confidence == b.confidence && (StringOrder.Less(x, u) || (x == u && StringOrder.Less(y, v))))))
  }

  lemma BeforeIsTotal(a: Row, b: Row, kind: Kind)
    ensures Before(a, b, kind) || Before(b, a, kind) || Identity(a, kind) == Identity(b, kind)
    ensures !(Before(a, b, kind) && Before(b, a, kind))
  {
    var (p, x, y) := Identity(a, kind);
    var (q, u, v) := Identity(b, kind);
    StringOrder.Trichotomy(p, q);
    StringOrder.Trichotomy(x, u);
    StringOrder.Trichotomy(y, v);
  }

  lemma BeforeIsTransitive(a: Row, b: Row, c: Row, kind: Kind)
    requires Before(a, b, kind) && Before(b, c, kind)
    ensures Before(a, c, kind)
  {
    var (p, x, y) := Identity(a, kind);
    var (q, u, v) := Identity(b, kind);
    var (r, s, t) := Identity(c, kind);
    if StringOrder.Less(p, q) && StringOrder.Less(q, r) { StringOrder.Transitive(p, q, r); }
    if StringOrder.Less(x, u) && StringOrder.Less(u, s) { StringOrder.Transitive(x, u, s); }
    if StringOrder.Less(y, v) && StringOrder.Less(v, t) { StringOrder.Transitive(y, v, t); }
  }

  ghost predicate Sorted(rows: seq<Row>, kind: Kind) {
    forall i, j :: 0 <= i < j < |rows| ==> Before(rows[i], rows[j], kind)
  }

  ghost predicate DistinctIdentities(rows: seq<Row>, kind: Kind) {
    forall i, j :: 0 <= i < j < |rows| ==> Identity(rows[i], kind) != Identity(rows[j], kind)
  }

  /******* The dictionary: one row per identity, the last one *******/

  function IndexOf(rows: seq<Row>, id: (string, string, string), kind: Kind): (i: int)
    ensures i == -1 ==> forall j :: 0 <= j < |rows| ==> Identity(rows[j], kind) != id
    ensures i != -1 ==> 0 <= i < |rows| && Identity(rows[i], kind) == id
  {
    if rows == [] then -1
    else if Identity(rows[|rows| - 1], kind) == id then |rows| - 1
    else IndexOf(rows[..|rows| - 1], id, kind)
  }

  function Put(dict: seq<Row>, row: Row, kind: Kind): seq<Row> {
    var i := IndexOf(dict, Identity(row, kind), kind);
    if row.provider == "" then dict else if i == -1 then dict + [row] else dict[i := row]
  }

  function Deduplicated(rows: seq<Row>, kind: Kind): seq<Row> {
    if rows == [] then [] else Put(Deduplicated(rows[..|rows| - 1], kind), rows[|rows| - 1], kind)
  }

  ghost predicate IsLast(rows: seq<Row>, row: Row, kind: Kind) {
    exists i :: 0 <= i < |rows| && rows[i] == row
      && forall j :: i < j < |rows| ==> Identity(rows[j], kind) != Identity(row, kind)
  }

  lemma LastOfOneMore(front: seq<Row>, last: Row, row: Row, kind: Kind)
    ensures IsLast(front + [last], row, kind)
            <==> row == last || (Identity(row, kind) != Identity(last, kind) && IsLast(front, row, kind))
  {
    var rows := front + [last];
    assert rows[|front|] == last;
    assert forall j :: 0 <= j < |front| ==> rows[j] == front[j];
    if row == last {
    } else if IsLast(rows, row, kind) {
      var i :| 0 <= i < |rows| && rows[i] == row && forall j ::
          i < j < |rows| ==> Identity(rows[j], kind) != Identity(row, kind);
      assert front[i] == row;
    }
  }

  lemma {:induction false} DeduplicatedKeepsLast(rows: seq<Row>, kind: Kind)
    ensures DistinctIdentities(Deduplicated(rows, kind), kind)
    ensures forall row :: row in Deduplicated(rows, kind) <==> row.provider != "" && IsLast(rows, row, kind)
  {
    if rows != [] {
      var front, last := rows[..|rows| - 1], rows[|rows| - 1];
      assert rows == front + [last];
      DeduplicatedKeepsLast(front, kind);
      var dict := Deduplicated(front, kind);
      PutReplaces(dict, last, kind);
      forall row
        ensures row in Put(dict, last, kind) <==> row.provider != "" && IsLast(rows, row, kind)
      {
        LastOfOneMore(front, last, row, kind);
      }
    }
  }

  lemma PutReplaces(dict: seq<Row>, last: Row, kind: Kind)
    requires DistinctIdentities(dict, kind) && forall row :: row in dict ==> row.provider != ""
    ensures DistinctIdentities(Put(dict, last, kind), kind)
    ensures forall row :: row in Put(dict, last, kind)
              <==> (row == last && last.provider != "") || (row in dict && Identity(row, kind) != Identity(last, kind))
  {
    var i := IndexOf(dict, Identity(last, kind), kind);
    var put := Put(dict, last, kind);
    if last.provider == "" {
      assert forall row :: row in dict ==> Identity(row, kind).0 != Identity(last, kind).0;
    } else if i == -1 {
      assert forall row :: row in dict ==> Identity(row, kind) != Identity(last, kind);
    } else {
      assert put[i] == last;
      forall row | row in dict && Identity(row, kind) != Identity(last, kind)
        ensures row in put
      {
        var k :| 0 <= k < |dict| && dict[k] == row;
        assert put[k] == row;
      }
    }
  }

  /******* Sorting *******/

  function Inserted(row: Row, sorted: seq<Row>, kind: Kind): seq<Row> {
    if sorted == [] || Before(row, sorted[0], kind) then [row] + sorted
    else [sorted[0]] + Inserted(row, sorted[1..], kind)
  }

  function SortedRows(rows: seq<Row>, kind: Kind): seq<Row> {
    if rows == [] then [] else Inserted(rows[0], SortedRows(rows[1..], kind), kind)
  }

  lemma {:induction false} InsertedIsSorted(row: Row, sorted: seq<Row>, kind: Kind)
    requires Sorted(sorted, kind) && forall r :: r in sorted ==> Identity(r, kind) != Identity(row, kind)
    ensures Sorted(Inserted(row, sorted, kind), kind)
    ensures forall r :: r in Inserted(row, sorted, kind) <==> r == row || r in sorted
  {
    if sorted == [] {
    } else if Before(row, sorted[0], kind) {
      forall j | 0 <= j < |sorted|
        ensures Before(row, sorted[j], kind)
      {
        if j > 0 { BeforeIsTransitive(row, sorted[0], sorted[j], kind); }
      }
    } else {
      assert sorted == [sorted[0]] + sorted[1..];
      BeforeIsTotal(row, sorted[0], kind);
      InsertedIsSorted(row, sorted[1..], kind);
      var tail := Inserted(row, sorted[1..], kind);
      forall j | 0 <= j < |tail|
        ensures Before(sorted[0], tail[j], kind)
      {
        assert tail[j] in tail;
      }
    }
  }

  lemma {:induction false} SortedRowsAreSorted(rows: seq<Row>, kind: Kind)
    requires DistinctIdentities(rows, kind)
    ensures Sorted(SortedRows(rows, kind), kind)
    ensures forall r :: r in SortedRows(rows, kind) <==> r in rows
  {
    if rows != [] {
      SortedRowsAreSorted(rows[1..], kind);
      assert rows == [rows[0]] + rows[1..];
      assert forall r :: r in rows[1..] ==> Identity(r, kind) != Identity(rows[0], kind);
      InsertedIsSorted(rows[0], SortedRows(rows[1..], kind), kind);
    }
  }

  lemma SameTail(a: seq<Row>, b: seq<Row>, kind: Kind)
    requires a != [] && b != [] && a[0] == b[0] && Sorted(a, kind) && Sorted(b, kind)
    requires forall r :: r in a <==> r in b
    ensures forall r :: r in a[1..] <==> r in b[1..]
  {
    BeforeIsTotal(a[0], a[0], kind);
    assert a == [a[0]] + a[1..] && b == [b[0]] + b[1..];
    assert a[0] !in a[1..] && b[0] !in b[1..];
    forall r
      ensures r in a[1..] <==> r in b[1..]
    {
      assert r in a <==> r in b;
    }
  }

  // A sorted list is determined by its rows.
  lemma {:induction false} SortedIsUnique(a: seq<Row>, b: seq<Row>, kind: Kind)
    requires Sorted(a, kind) && Sorted(b, kind) && forall r :: r in a <==> r in b
    ensures a == b
  {
    assert b != [] ==> b[0] in b;
    if a != [] {
      assert a[0] in b;
      assert b[0] in a;
      if a[0] != b[0] {
        assert Before(a[0], b[0], kind) && Before(b[0], a[0], kind);
        BeforeIsTotal(a[0], b[0], kind);
      }
      SameTail(a, b, kind);
      SortedIsUnique(a[1..], b[1..], kind);
      assert a == [a[0]] + a[1..] == b;
    }
  }

  /******* Merging *******/

  predicate Compatible(previous: Option<Document>, candidate: Document) {
    && previous.Some?
    && previous.value.sourceSha == candidate.sourceSha
    && previous.value.brainSha == candidate.brainSha
  }

  // The rows inside, or outside, the refreshed providers.
  function RowsOf(rows: seq<Row>, refreshed: set<string>, inside: bool): seq<Row> {
    if rows == [] then []
    else
      var last := rows[|rows| - 1];
      RowsOf(rows[..|rows| - 1], refreshed, inside)
      + if (last.provider in refreshed) == inside then [last] else []
  }

  function Kept(previous: Option<Document>, candidate: Document, refreshed: set<string>): seq<Row> {
    if Compatible(previous, candidate) then RowsOf(previous.value.rows, refreshed, false) else []
  }

  function MergedRows(previous: Option<Document>, candidate: Document, refreshed: set<string>, kind: Kind): seq<Row> {
    SortedRows(Deduplicated(Kept(previous, candidate, refreshed) + RowsOf(candidate.rows, refreshed, true), kind), kind)
  }

  function Providers(rows: seq<Row>): set<string> {
    set row | row in rows :: row.provider
  }

  function Merged(previous: Option<Document>, candidate: Document, refreshed: set<string>, kind: Kind): Document {
    var rows := MergedRows(previous, candidate, refreshed, kind);
    candidate.(rows := rows, providerCount := |Providers(rows)|)
  }

  lemma DeduplicatedStep(rows: seq<Row>, i: nat, kind: Kind)
    requires i < |rows|
    ensures Deduplicated(rows[..i + 1], kind) == Put(Deduplicated(rows[..i], kind), rows[i], kind)
  {
    assert rows[..i + 1][..i] == rows[..i];
  }

  method Merge(previous: Option<Document>, candidate: Document, refreshed: set<string>, kind: Kind)
    returns (out: Document)
    ensures out == Merged(previous, candidate, refreshed, kind)
  {
    var rows := [];
    if Compatible(previous, candidate) {
      rows := RowsOf(previous.value.rows, refreshed, false);
    }
    rows := rows + RowsOf(candidate.rows, refreshed, true);
    var dedup: seq<Row> := [];
    for i := 0 to |rows|
      invariant dedup == Deduplicated(rows[..i], kind)
    {
      DeduplicatedStep(rows, i, kind);
      dedup := Put(dedup, rows[i], kind);
    }
    assert rows[..|rows|] == rows;
    rows := SortedRows(dedup, kind);
    out := candidate.(rows := rows, providerCount := |Providers(rows)|);
  }

  /******* What a merge holds *******/

  // The row a merge must hold: the last one of its identity, on the side that owns its provider.
  ghost predicate Belongs(previous: Option<Document>, candidate: Document, refreshed: set<string>, kind: Kind,
                          row: Row)
  {
    && row.provider != ""
    && if row.provider in refreshed then IsLast(candidate.rows, row, kind)
       else Compatible(previous, candidate) && IsLast(previous.value.rows, row, kind)
  }

  lemma {:induction false} LastAmongProviders(rows: seq<Row>, refreshed: set<string>, inside: bool, row: Row,
                                              kind: Kind)
    ensures IsLast(RowsOf(rows, refreshed, inside), row, kind)
            <==> (row.provider in refreshed) == inside && IsLast(rows, row, kind)
  {
    if rows != [] {
      var front, last := rows[..|rows| - 1], rows[|rows| - 1];
      assert rows == front + [last];
      LastAmongProviders(front, refreshed, inside, row, kind);
      LastOfOneMore(front, last, row, kind);
      LastOfOneMore(RowsOf(front, refreshed, inside), last, row, kind);
      if (last.provider in refreshed) != inside {
        assert RowsOf(rows, refreshed, inside) == RowsOf(front, refreshed, inside);
      }
    }
  }

  lemma {:induction false} OnlyProviders(rows: seq<Row>, refreshed: set<string>, inside: bool)
    ensures forall row ::
              row in RowsOf(rows, refreshed, inside) <==> row in rows && (row.provider in refreshed) == inside
  {
    if rows != [] {
      assert rows == rows[..|rows| - 1] + [rows[|rows| - 1]];
      OnlyProviders(rows[..|rows| - 1], refreshed, inside);
    }
  }

  lemma {:induction false} LastOfBoth(a: seq<Row>, b: seq<Row>, row: Row, kind: Kind)
    requires forall x, y :: x in a && y in b ==> x.provider != y.provider
    ensures IsLast(a + b, row, kind) <==> IsLast(a, row, kind) || IsLast(b, row, kind)
  {
    if b == [] {
      assert a + b == a;
    } else {
      var front, last := b[..|b| - 1], b[|b| - 1];
      assert b == front + [last] && a + b == (a + front) + [last];
      LastOfBoth(a, front, row, kind);
      LastOfOneMore(front, last, row, kind);
      LastOfOneMore(a + front, last, row, kind);
      if IsLast(a, row, kind) {
        assert row in a && last in b;
      }
    }
  }

  lemma SortedKeepsDistinct(sorted: seq<Row>, rows: seq<Row>, kind: Kind)
    requires Sorted(sorted, kind) && DistinctIdentities(rows, kind) && forall row :: row in sorted ==> row in rows
    ensures DistinctIdentities(sorted, kind)
  {
    forall i, j | 0 <= i < j < |sorted|
      ensures Identity(sorted[i], kind) != Identity(sorted[j], kind)
    {
      BeforeIsTotal(sorted[i], sorted[j], kind);
      assert sorted[i] in rows && sorted[j] in rows;
    }
  }

  // A merge is sorted, has one row an identity, and holds exactly the rows that belong; it counts their
  // providers, and the rest of the document is the candidate's.
  lemma MergeHolds(previous: Option<Document>, candidate: Document, refreshed: set<string>, kind: Kind)
    ensures Sorted(MergedRows(previous, candidate, refreshed, kind), kind)
    ensures DistinctIdentities(MergedRows(previous, candidate, refreshed, kind), kind)
    ensures forall row :: row in MergedRows(previous, candidate, refreshed, kind)
              <==> Belongs(previous, candidate, refreshed, kind, row)
    ensures var merged := Merged(previous, candidate, refreshed, kind);
            && merged.providerCount == |set row | row in merged.rows :: row.provider|
            && merged.(rows := candidate.rows, providerCount := candidate.providerCount) == candidate
  {
    var kept, page := Kept(previous, candidate, refreshed), RowsOf(candidate.rows, refreshed, true);
    DeduplicatedKeepsLast(kept + page, kind);
    var dedup := Deduplicated(kept + page, kind);
    SortedRowsAreSorted(dedup, kind);
    SortedKeepsDistinct(SortedRows(dedup, kind), dedup, kind);
    forall row
      ensures row in dedup <==> Belongs(previous, candidate, refreshed, kind, row)
    {
      GatheredHolds(previous, candidate, refreshed, kind, row);
    }
  }

  lemma GatheredHolds(previous: Option<Document>, candidate: Document, refreshed: set<string>, kind: Kind, row: Row)
    ensures row.provider != ""
            && IsLast(Kept(previous, candidate, refreshed) + RowsOf(candidate.rows, refreshed, true), row, kind)
            <==> Belongs(previous, candidate, refreshed, kind, row)
  {
    OnlyProviders(candidate.rows, refreshed, true);
    LastAmongProviders(candidate.rows, refreshed, true, row, kind);
    if Compatible(previous, candidate) {
      OnlyProviders(previous.value.rows, refreshed, false);
      LastAmongProviders(previous.value.rows, refreshed, false, row, kind);
    }
    LastOfBoth(Kept(previous, candidate, refreshed), RowsOf(candidate.rows, refreshed, true), row, kind);
  }

  lemma LastOfDistinct(rows: seq<Row>, row: Row, kind: Kind)
    requires DistinctIdentities(rows, kind)
    ensures IsLast(rows, row, kind) <==> row in rows
  {
    if row in rows {
      var i :| 0 <= i < |rows| && rows[i] == row;
      assert forall j :: i < j < |rows| ==> Identity(rows[j], kind) != Identity(row, kind);
    }
  }

  /******* The laws *******/

  lemma MergeIsIdempotent(previous: Option<Document>, candidate: Document, refreshed: set<string>, kind: Kind)
    ensures var once := Merged(previous, candidate, refreshed, kind);
            Merged(Some(once), candidate, refreshed, kind) == once
  {
    var once := Merged(previous, candidate, refreshed, kind);
    MergeHolds(previous, candidate, refreshed, kind);
    MergeHolds(Some(once), candidate, refreshed, kind);
    forall row
      ensures row in once.rows <==> row in MergedRows(Some(once), candidate, refreshed, kind)
    {
      LastOfDistinct(once.rows, row, kind);
    }
    SortedIsUnique(once.rows, MergedRows(Some(once), candidate, refreshed, kind), kind);
  }

  lemma DisjointMergesCommute(previous: Option<Document>, left: Document, right: Document,
                              these: set<string>, those: set<string>, kind: Kind)
    requires these !! those && Compatible(Some(left), right)
    ensures MergedRows(Some(Merged(previous, left, these, kind)), right, those, kind)
            == MergedRows(Some(Merged(previous, right, those, kind)), left, these, kind)
  {
    var first, second := Merged(previous, left, these, kind), Merged(previous, right, those, kind);
    MergeHolds(previous, left, these, kind);
    MergeHolds(previous, right, those, kind);
    MergeHolds(Some(first), right, those, kind);
    MergeHolds(Some(second), left, these, kind);
    var a, b := MergedRows(Some(first), right, those, kind), MergedRows(Some(second), left, these, kind);
    forall row
      ensures row in a <==> row in b
    {
      LastOfDistinct(first.rows, row, kind);
      LastOfDistinct(second.rows, row, kind);
    }
    SortedIsUnique(a, b, kind);
  }

  lemma {:induction false} ProvidersStaySorted(rows: seq<Row>, refreshed: set<string>, inside: bool, kind: Kind)
    requires Sorted(rows, kind)
    ensures Sorted(RowsOf(rows, refreshed, inside), kind)
  {
    if rows != [] {
      var front, last := rows[..|rows| - 1], rows[|rows| - 1];
      ProvidersStaySorted(front, refreshed, inside, kind);
      OnlyProviders(front, refreshed, inside);
      var kept := RowsOf(front, refreshed, inside);
      forall i | 0 <= i < |kept|
        ensures Before(kept[i], last, kind)
      {
        assert kept[i] in front;
      }
    }
  }

  // The rows of a merged document satisfy this, and so does the merge of any two.
  ghost predicate IsMerge(document: Document, kind: Kind) {
    && Sorted(document.rows, kind)
    && DistinctIdentities(document.rows, kind)
    && forall row :: row in document.rows ==> row.provider != ""
  }

  lemma UnrefreshedRowsStay(previous: Document, candidate: Document, refreshed: set<string>, kind: Kind)
    requires IsMerge(previous, kind)
    requires previous.sourceSha == candidate.sourceSha && previous.brainSha == candidate.brainSha
    ensures IsMerge(Merged(Some(previous), candidate, refreshed, kind), kind)
    ensures RowsOf(MergedRows(Some(previous), candidate, refreshed, kind), refreshed, false)
            == RowsOf(previous.rows, refreshed, false)
  {
    var rows := MergedRows(Some(previous), candidate, refreshed, kind);
    MergeHolds(Some(previous), candidate, refreshed, kind);
    ProvidersStaySorted(rows, refreshed, false, kind);
    ProvidersStaySorted(previous.rows, refreshed, false, kind);
    OnlyProviders(rows, refreshed, false);
    OnlyProviders(previous.rows, refreshed, false);
    var a, b := RowsOf(rows, refreshed, false), RowsOf(previous.rows, refreshed, false);
    forall row
      ensures row in a <==> row in b
    {
      LastOfDistinct(previous.rows, row, kind);
    }
    SortedIsUnique(a, b, kind);
  }

  lemma OtherSourceStartsAfresh(previous: Document, candidate: Document, refreshed: set<string>, kind: Kind)
    requires previous.sourceSha != candidate.sourceSha || previous.brainSha != candidate.brainSha
    ensures Merged(Some(previous), candidate, refreshed, kind) == Merged(None, candidate, refreshed, kind)
    ensures forall row :: row in MergedRows(Some(previous), candidate, refreshed, kind) ==> row.provider in refreshed
  {
    MergeHolds(Some(previous), candidate, refreshed, kind);
  }

  /******* A run of merges *******/

  datatype Page = Page(candidate: Document, refreshed: set<string>)

  function MergeAll(pages: seq<Page>, kind: Kind): Option<Document> {
    if pages == [] then None
    else
      var last := pages[|pages| - 1];
      Some(Merged(MergeAll(pages[..|pages| - 1], kind), last.candidate, last.refreshed, kind))
  }

  // The last page that refreshed the provider.
  function PageOf(pages: seq<Page>, provider: string): (k: int)
    ensures k == -1 || (0 <= k < |pages| && provider in pages[k].refreshed)
  {
    if pages == [] then -1
    else if provider in pages[|pages| - 1].refreshed then |pages| - 1
    else PageOf(pages[..|pages| - 1], provider)
  }

  ghost predicate OneSource(pages: seq<Page>) {
    forall i, j :: 0 <= i < |pages| && 0 <= j < |pages| ==> Compatible(Some(pages[i].candidate), pages[j].candidate)
  }

  // Every provider's rows are those of the last page that refreshed it.
  lemma {:induction false} RunHoldsLastPages(pages: seq<Page>, kind: Kind, row: Row)
    requires pages != [] && OneSource(pages)
    ensures MergeAll(pages, kind).Some? && IsMerge(MergeAll(pages, kind).value, kind)
    ensures row in MergeAll(pages, kind).value.rows
            <==> row.provider != ""
                 && var k := PageOf(pages, row.provider);
                    k >= 0 && IsLast(pages[k].candidate.rows, row, kind)
  {
    var front, last := pages[..|pages| - 1], pages[|pages| - 1];
    MergeHolds(MergeAll(front, kind), last.candidate, last.refreshed, kind);
    if front != [] {
      assert Compatible(Some(pages[|front| - 1].candidate), last.candidate);
      RunHoldsLastPages(front, kind, row);
      LastOfDistinct(MergeAll(front, kind).value.rows, row, kind);
    }
  }
}
