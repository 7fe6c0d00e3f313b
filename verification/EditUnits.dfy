/**
 The edit units a model may choose from: exact slices of the current source, selected in
 stages up to a budget, kept away from avoided functions, and named so that the id a model
 returns leads back to the bytes it saw. Patterns, ranking and role scores are inputs.
 */
module EditUnits {
  import opened Basics
  import opened PythonText
  import AnchorCompiler
  import BraceScanner
  import SourceWindows

  datatype Kind = Statement | Sequence | FunctionUnit

  datatype Row = Row(window: string, offset: nat, end: nat, reason: string, kind: Kind, source: string)

  type Key = (nat, nat)

  function KeyOf(row: Row): Key {
    (row.offset, row.end)
  }

  function Keys(rows: seq<Row>): set<Key> {
    set row | row in rows :: KeyOf(row)
  }

  // A non-empty slice of the text at its own offset.
  ghost predicate Exact(row: Row, text: string) {
    row.offset < row.end <= |text| && row.source == text[row.offset..row.end]
  }

  ghost predicate DistinctKeys(rows: seq<Row>) {
    forall i, j :: 0 <= i < j < |rows| ==> KeyOf(rows[i]) != KeyOf(rows[j])
  }

  /******* Collecting candidates *******/

  // A span found in a window, by local offsets, or a whole function found in the text.
  datatype Candidate = InWindow(index: nat, left: nat, right: nat, kind: Kind)
                     | InText(start: nat, end: nat, nearest: string, reason: string)

  function RowOf(text: string, windows: seq<SourceWindows.Window>, c: Candidate): Row {
    match c
    case InWindow(index, left, right, kind) =>
      if index >= |windows| then Row("", 0, 0, "", kind, "")
      else
        var w := windows[index];
        var fragment := SourceWindows.Slice(w.source, left, right);
        Row(w.id, w.offset + left, w.offset + left + |fragment|, w.reason, kind, fragment)
    case InText(start, end, nearest, reason) =>
      Row(nearest, start, end, reason, FunctionUnit, SourceWindows.Slice(text, start, end))
  }

  // The structural check of a fragment at its place; it never passes a blank one.
  type Check = (string, nat, Kind) -> bool

  ghost predicate RefusesBlank(safe: Check) {
    forall at: nat, kind :: !safe("", at, kind)
  }

  // What it asks of a whole function: scanned on its own, the fragment ends where it ends.
  ghost predicate ScansFunctions(safe: Check, k: BraceScanner.Chars) {
    forall fragment: string, at: nat ::
        safe(fragment, at, FunctionUnit) ==> BraceScanner.IsFunctionEnd(k, fragment, 0, |fragment|)
  }

  function Collected(text: string, windows: seq<SourceWindows.Window>, candidates: seq<Candidate>,
                     safe: Check): seq<Row>
  {
    if candidates == [] then []
    else
      var front := Collected(text, windows, candidates[..|candidates| - 1], safe);
      var row := RowOf(text, windows, candidates[|candidates| - 1]);
      if KeyOf(row) in Keys(front) || !safe(row.source, row.offset, row.kind) then front else front + [row]
  }

  method CollectRows(text: string, windows: seq<SourceWindows.Window>, candidates: seq<Candidate>, safe: Check)
    returns (ranked: seq<Row>)
    ensures ranked == Collected(text, windows, candidates, safe)
  {
    ranked := [];
    var seen: set<Key> := {};
    for i := 0 to |candidates|
      invariant ranked == Collected(text, windows, candidates[..i], safe)
      invariant seen == Keys(ranked)
    {
      assert candidates[..i + 1][..i] == candidates[..i];
      var row := RowOf(text, windows, candidates[i]);
      if KeyOf(row) in seen || !safe(row.source, row.offset, row.kind) {
        continue;
      }
      KeysOfOneMore(ranked, row);
      seen := seen + {KeyOf(row)};
      ranked := ranked + [row];
    }
    assert candidates[..|candidates|] == candidates;
  }

  lemma KeysOfOneMore(rows: seq<Row>, row: Row)
    ensures Keys(rows + [row]) == Keys(rows) + {KeyOf(row)}
  {
  }

  ghost predicate ExactWindows(windows: seq<SourceWindows.Window>, text: string) {
    forall k :: 0 <= k < |windows|
      ==> windows[k].offset <= windows[k].end <= |text| && windows[k].source == text[windows[k].offset..windows[k].end]
  }

  ghost predicate InBounds(c: Candidate, windows: seq<SourceWindows.Window>, text: string) {
    match c
    case InWindow(index, _, _, _) => index < |windows|
    case InText(start, end, _, _) => start <= end <= |text|
  }

  lemma RowIsExact(text: string, windows: seq<SourceWindows.Window>, c: Candidate)
    requires ExactWindows(windows, text) && InBounds(c, windows, text)
    ensures var row := RowOf(text, windows, c); row.source != "" ==> Exact(row, text)
  {
    if c.InWindow? && RowOf(text, windows, c).source != "" {
      var w := windows[c.index];
      SliceOfSlice(text, w.offset, w.end, c.left, Min(c.right, |w.source|));
    }
  }

  lemma {:induction false} CollectedIsExact(text: string, windows: seq<SourceWindows.Window>,
                                            candidates: seq<Candidate>, safe: Check)
    requires ExactWindows(windows, text) && RefusesBlank(safe)
    requires forall i :: 0 <= i < |candidates| ==> InBounds(candidates[i], windows, text)
    ensures var rows := Collected(text, windows, candidates, safe);
            DistinctKeys(rows) && forall i :: 0 <= i < |rows| ==> Exact(rows[i], text)
  {
    if candidates != [] {
      var n := |candidates| - 1;
      CollectedIsExact(text, windows, candidates[..n], safe);
      var front := Collected(text, windows, candidates[..n], safe);
      RowIsExact(text, windows, candidates[n]);
      assert forall i :: 0 <= i < |front| ==> KeyOf(front[i]) in Keys(front);
    }
  }

  ghost predicate AllSafe(rows: seq<Row>, safe: Check) {
    forall i :: 0 <= i < |rows| ==> safe(rows[i].source, rows[i].offset, rows[i].kind)
  }

  lemma {:induction false} CollectedIsSafe(text: string, windows: seq<SourceWindows.Window>, candidates: seq<Candidate>,
                                           safe: Check)
    ensures AllSafe(Collected(text, windows, candidates, safe), safe)
  {
    if candidates != [] { CollectedIsSafe(text, windows, candidates[..|candidates| - 1], safe); }
  }

  // A row that claims to be a function ends, in the text itself, with that function's block.
  ghost predicate WholeFunction(row: Row, text: string, k: BraceScanner.Chars) {
    row.kind == FunctionUnit ==> BraceScanner.IsFunctionEnd(k, text, row.offset, row.end)
  }

  // However a function was found, in a window or in the text, its row is the whole function
  // where it stands.
  lemma FunctionRowsAreWhole(text: string, windows: seq<SourceWindows.Window>, candidates: seq<Candidate>, safe: Check,
                             k: BraceScanner.Chars)
    requires ExactWindows(windows, text) && RefusesBlank(safe) && ScansFunctions(safe, k)
    requires forall i :: 0 <= i < |candidates| ==> InBounds(candidates[i], windows, text)
    ensures var rows := Collected(text, windows, candidates, safe);
            forall i :: 0 <= i < |rows| ==> WholeFunction(rows[i], text, k)
  {
    var rows := Collected(text, windows, candidates, safe);
    CollectedIsExact(text, windows, candidates, safe);
    CollectedIsSafe(text, windows, candidates, safe);
    forall i | 0 <= i < |rows|
      ensures WholeFunction(rows[i], text, k)
    {
      SafeRowIsWhole(rows[i], text, safe, k);
    }
  }

  lemma SafeRowIsWhole(row: Row, text: string, safe: Check, k: BraceScanner.Chars)
    requires Exact(row, text) && safe(row.source, row.offset, row.kind) && ScansFunctions(safe, k)
    ensures WholeFunction(row, text, k)
  {
    BraceScanner.FragmentCheckIsExact(k, text, row.offset, row.end);
  }

  /******* The local call graph, two calls deep *******/

  // The functions a function refers to, by name or as a callback.
  type Calls = Key -> seq<Key>

  function Called(calls: Calls, from: set<Key>): set<Key> {
    set k, c | k in from && c in calls(k) :: c
  }

  // What is one or two calls away.
  function Callees(calls: Calls, roots: set<Key>): set<Key> {
    Called(calls, roots) + Called(calls, Called(calls, roots))
  }

  datatype Visit = Visit(key: Key, depth: nat)

  const MAX_DEPTH := 2

  // Everything worth expanding: the roots, and what they call.
  function Expandable(calls: Calls, roots: set<Key>): set<Visit> {
    (set k | k in roots :: Visit(k, 0)) + set k | k in Called(calls, roots) :: Visit(k, 1)
  }

  function Step(calls: Calls, v: Visit): seq<Visit> {
    VisitsOf(calls(v.key), v.depth + 1)
  }

  function VisitsOf(keys: seq<Key>, depth: nat): (visits: seq<Visit>)
    ensures |visits| == |keys| && forall i :: 0 <= i < |keys| ==> visits[i] == Visit(keys[i], depth)
  {
    seq(|keys|, i requires 0 <= i < |keys| => Visit(keys[i], depth))
  }

  // What the queue may hold, and what has been found through the visits seen so far.
  ghost predicate Traversed(calls: Calls, roots: set<Key>, queue: seq<Visit>, seen: set<Visit>, found: set<Key>) {
    && Bounded(calls, roots, queue, seen, found)
    && Pending(roots, queue, seen)
    && Expanded(calls, queue, seen, found)
  }

  ghost predicate Bounded(calls: Calls, roots: set<Key>, queue: seq<Visit>, seen: set<Visit>, found: set<Key>) {
    && seen <= Expandable(calls, roots)
    && (forall i :: 0 <= i < |queue| ==> queue[i] in Expandable(calls, roots) || queue[i].depth >= MAX_DEPTH)
    && found <= Callees(calls, roots)
  }

  ghost predicate Pending(roots: set<Key>, queue: seq<Visit>, seen: set<Visit>) {
    forall k :: k in roots ==> Visit(k, 0) in seen || Visit(k, 0) in queue
  }

  ghost predicate Expanded(calls: Calls, queue: seq<Visit>, seen: set<Visit>, found: set<Key>) {
    forall v :: v in seen ==> ExpandedAt(calls, queue, seen, found, v)
  }

  ghost predicate ExpandedAt(calls: Calls, queue: seq<Visit>, seen: set<Visit>, found: set<Key>, v: Visit) {
    forall c :: c in calls(v.key) ==> c in found && (v.depth == 0 ==> Visit(c, 1) in seen || Visit(c, 1) in queue)
  }

  // The traversal finds exactly what is one or two calls away from the roots, less the roots.
  method FindCallees(calls: Calls, roots: seq<Row>) returns (neighbors: set<Key>)
    ensures neighbors == Callees(calls, Keys(roots)) - Keys(roots)
  {
    var keys := Keys(roots);
    var queue := RootVisits(roots);
    var seen: set<Visit> := {};
    ghost var found: set<Key> := {};
    neighbors := {};
    RootsQueued(roots);
    while queue != []
      invariant Traversed(calls, keys, queue, seen, found) && neighbors == found - keys
      decreases |Expandable(calls, keys) - seen|, |queue|
    {
      var v := queue[0];
      if v in seen || v.depth >= MAX_DEPTH {
        SkipKeeps(calls, keys, queue, seen, found);
        queue := queue[1..];
      } else {
        VisitKeeps(calls, keys, queue, seen, found);
        LessTheRoots(found, KeySet(calls(v.key)), keys);
        found := found + KeySet(calls(v.key));
        neighbors := neighbors + (KeySet(calls(v.key)) - keys);
        seen := seen + {v};
        queue := queue[1..] + Step(calls, v);
      }
    }
    AllFound(calls, keys, seen, found);
  }

  lemma LessTheRoots(found: set<Key>, more: set<Key>, keys: set<Key>)
    ensures (found + more) - keys == (found - keys) + (more - keys)
  {
  }

  function KeySet(keys: seq<Key>): set<Key> {
    set k | k in keys
  }

  function RootVisits(roots: seq<Row>): (visits: seq<Visit>)
    ensures |visits| == |roots| && forall i :: 0 <= i < |roots| ==> visits[i] == Visit(KeyOf(roots[i]), 0)
  {
    seq(|roots|, i requires 0 <= i < |roots| => Visit(KeyOf(roots[i]), 0))
  }

  lemma RootsQueued(roots: seq<Row>)
    ensures forall k :: k in Keys(roots) ==> Visit(k, 0) in RootVisits(roots)
    ensures forall i :: 0 <= i < |roots| ==> RootVisits(roots)[i].key in Keys(roots)
  {
  }

  lemma SkipKeeps(calls: Calls, roots: set<Key>, queue: seq<Visit>, seen: set<Visit>, found: set<Key>)
    requires queue != [] && Traversed(calls, roots, queue, seen, found)
    requires queue[0] in seen || queue[0].depth >= MAX_DEPTH
    ensures Traversed(calls, roots, queue[1..], seen, found)
  {
  }

  lemma StepIsExpandable(calls: Calls, roots: set<Key>, v: Visit, i: nat)
    requires v in Expandable(calls, roots) && i < |Step(calls, v)|
    ensures Step(calls, v)[i] in Expandable(calls, roots) || Step(calls, v)[i].depth >= MAX_DEPTH
  {
    if v.depth == 0 {
      var c := calls(v.key)[i];
      assert v.key in roots && c in calls(v.key);
      assert c in Called(calls, roots);
    }
  }

  lemma StepIsFound(calls: Calls, roots: set<Key>, v: Visit)
    requires v in Expandable(calls, roots)
    ensures KeySet(calls(v.key)) <= Callees(calls, roots)
  {
  }

  lemma VisitStaysBounded(calls: Calls, roots: set<Key>, v: Visit, rest: seq<Visit>, seen: set<Visit>, found: set<Key>)
    requires Bounded(calls, roots, [v] + rest, seen, found) && v.depth < MAX_DEPTH
    ensures Bounded(calls, roots, rest + Step(calls, v), seen + {v}, found + KeySet(calls(v.key)))
  {
    var queue, after := [v] + rest, rest + Step(calls, v);
    assert queue[0] == v;
    forall i | 0 <= i < |after|
      ensures after[i] in Expandable(calls, roots) || after[i].depth >= MAX_DEPTH
    {
      if i < |rest| {
        assert after[i] == queue[i + 1];
      } else {
        StepIsExpandable(calls, roots, v, i - |rest|);
      }
    }
    StepIsFound(calls, roots, v);
  }

  lemma VisitStaysExpanded(calls: Calls, v: Visit, rest: seq<Visit>, seen: set<Visit>, found: set<Key>)
    requires Expanded(calls, [v] + rest, seen, found)
    ensures Expanded(calls, rest + Step(calls, v), seen + {v}, found + KeySet(calls(v.key)))
  {
  }

  lemma VisitKeeps(calls: Calls, roots: set<Key>, queue: seq<Visit>, seen: set<Visit>, found: set<Key>)
    requires queue != [] && Traversed(calls, roots, queue, seen, found)
    requires queue[0] !in seen && queue[0].depth < MAX_DEPTH
    ensures var v := queue[0];
            && Traversed(calls, roots, queue[1..] + Step(calls, v), seen + {v}, found + KeySet(calls(v.key)))
            && |Expandable(calls, roots) - (seen + {v})| < |Expandable(calls, roots) - seen|
  {
    var v, rest := queue[0], queue[1..];
    assert queue == [v] + rest;
    VisitStaysBounded(calls, roots, v, rest, seen, found);
    VisitStaysExpanded(calls, v, rest, seen, found);
    assert v in Expandable(calls, roots);
    assert Expandable(calls, roots) - seen == (Expandable(calls, roots) - (seen + {v})) + {v};
  }

  lemma AllFound(calls: Calls, roots: set<Key>, seen: set<Visit>, found: set<Key>)
    requires Traversed(calls, roots, [], seen, found)
    ensures found == Callees(calls, roots)
  {
  }

  /******* Selection in stages *******/

  // Add a row unless its span is taken or the budget is spent.
  function Offered(selected: seq<Row>, row: Row, max: nat): seq<Row> {
    if |selected| >= max || KeyOf(row) in Keys(selected) then selected else selected + [row]
  }

  function OfferedAll(selected: seq<Row>, rows: seq<Row>, max: nat): seq<Row> {
    if rows == [] then selected else Offered(OfferedAll(selected, rows[..|rows| - 1], max), rows[|rows| - 1], max)
  }

  // Add the first row whose span is free, if the budget allows one.
  function FirstOffered(selected: seq<Row>, rows: seq<Row>, max: nat): seq<Row>
    decreases |rows|
  {
    if rows == [] || |selected| >= max then selected
    else if KeyOf(rows[0]) in Keys(selected) then FirstOffered(selected, rows[1..], max)
    else selected + [rows[0]]
  }

  // Small pieces of one oversized helper: at most two, apart from each other.
  function ReservedFrom(selected: seq<Row>, reserved: seq<Row>, rows: seq<Row>, max: nat): (seq<Row>, seq<Row>)
    decreases |rows|
  {
    if rows == [] || |selected| >= max || |reserved| >= Min(2, max) then (selected, reserved)
    else if KeyOf(rows[0]) in Keys(selected) || Crosses(rows[0], reserved)
    then ReservedFrom(selected, reserved, rows[1..], max)
    else ReservedFrom(selected + [rows[0]], reserved + [rows[0]], rows[1..], max)
  }

  predicate Crosses(row: Row, reserved: seq<Row>) {
    exists k :: 0 <= k < |reserved| && row.offset < reserved[k].end && row.end > reserved[k].offset
  }

  // The first oversized helper that yields a piece.
  function Reserved(selected: seq<Row>, helpers: seq<seq<Row>>, max: nat): seq<Row>
    decreases |helpers|
  {
    if helpers == [] || |selected| >= max then selected
    else
      var (after, reserved) := ReservedFrom(selected, [], helpers[0], max);
      if reserved != [] then after else Reserved(after, helpers[1..], max)
  }

  type Span = (nat, nat)

  predicate Avoids(row: Row, avoided: seq<Span>) {
    forall k :: 0 <= k < |avoided| ==> !(avoided[k].0 <= row.offset && row.end <= avoided[k].1)
  }

  function Allowed(rows: seq<Row>, avoided: seq<Span>): seq<Row> {
    if rows == [] then []
    else Allowed(rows[..|rows| - 1], avoided) + if Avoids(rows[|rows| - 1], avoided) then [rows[|rows| - 1]] else []
  }

  // The lists the stages draw on, each in its own ranking: selectors of the executed branch,
  // pieces of oversized helpers, whole functions, callees with the reserved second-hop one,
  // everything ranked, and the functions to keep out.
  datatype Plan = Plan(selectors: seq<Row>, helpers: seq<seq<Row>>, functions: seq<Row>, roots: nat,
                       secondHop: seq<Row>, neighbors: seq<Row>, ranked: seq<Row>, avoided: seq<Span>)

  // What the traversal of the call graph starts from.
  function Roots(plan: Plan, max: nat): seq<Row> {
    var selectors := OfferedAll([], Take(plan.selectors, Min(3, max)), max);
    var reserved := Reserved(selectors, plan.helpers, max);
    OfferedAll(reserved, Take(plan.functions, Min(plan.roots, max)), max)
  }

  function WithCallees(plan: Plan, max: nat): seq<Row> {
    OfferedAll(FirstOffered(Roots(plan, max), plan.secondHop, max), plan.neighbors, max)
  }

  function BeforeAvoiding(plan: Plan, max: nat): seq<Row> {
    OfferedAll(WithCallees(plan, max), plan.ranked, max)
  }

  function Selected(plan: Plan, max: nat): seq<Row> {
    var kept := Allowed(BeforeAvoiding(plan, max), plan.avoided);
    if plan.avoided == [] then kept
    else OfferedAll(kept, Allowed(plan.neighbors + plan.functions, plan.avoided), max)
  }

  method OfferRows(selected: seq<Row>, rows: seq<Row>, max: nat) returns (out: seq<Row>)
    ensures out == OfferedAll(selected, rows, max)
  {
    out := selected;
    var keys := Keys(selected);
    for i := 0 to |rows|
      invariant out == OfferedAll(selected, rows[..i], max) && keys == Keys(out)
    {
      assert rows[..i + 1][..i] == rows[..i];
      if |out| < max && KeyOf(rows[i]) !in keys {
        KeysOfOneMore(out, rows[i]);
        out := out + [rows[i]];
        keys := keys + {KeyOf(rows[i])};
      }
    }
    assert rows[..|rows|] == rows;
  }

  method OfferFirst(selected: seq<Row>, rows: seq<Row>, max: nat) returns (out: seq<Row>)
    ensures out == FirstOffered(selected, rows, max)
  {
    out := selected;
    var rest := rows;
    while rest != [] && |selected| < max
      invariant out == selected && FirstOffered(selected, rows, max) == FirstOffered(selected, rest, max)
      decreases |rest|
    {
      if KeyOf(rest[0]) !in Keys(selected) {
        return selected + [rest[0]];
      }
      rest := rest[1..];
    }
  }

  method ReservePieces(selected: seq<Row>, rows: seq<Row>, max: nat) returns (out: seq<Row>, any: bool)
    ensures out == ReservedFrom(selected, [], rows, max).0
    ensures any <==> ReservedFrom(selected, [], rows, max).1 != []
  {
    out := selected;
    var reserved: seq<Row> := [];
    var rest := rows;
    while rest != [] && |out| < max && |reserved| < Min(2, max)
      invariant ReservedFrom(selected, [], rows, max) == ReservedFrom(out, reserved, rest, max)
      decreases |rest|
    {
      var row := rest[0];
      rest := rest[1..];
      if KeyOf(row) !in Keys(out) && !Crosses(row, reserved) {
        out := out + [row];
        reserved := reserved + [row];
      }
    }
    any := reserved != [];
  }

  ghost predicate ApartRows(rows: seq<Row>) {
    forall i, j :: 0 <= i < j < |rows| ==> rows[j].end <= rows[i].offset || rows[j].offset >= rows[i].end
  }

  // Some pieces of one list, at most two, apart from each other, none selected before.
  ghost predicate Pieces(base: seq<Row>, reserved: seq<Row>, rows: seq<Row>) {
    && |reserved| <= 2 && ApartRows(reserved)
    && forall row :: row in reserved ==> row in rows && KeyOf(row) !in Keys(base)
  }

  ghost predicate AllTaken(rows: seq<Row>, base: seq<Row>) {
    forall row :: row in rows ==> KeyOf(row) in Keys(base)
  }

  lemma {:induction false} PiecesHold(base: seq<Row>, reserved: seq<Row>, rows: seq<Row>, all: seq<Row>, max: nat)
    requires Pieces(base, reserved, all) && forall row :: row in rows ==> row in all
    ensures var (out, pieces) := ReservedFrom(base + reserved, reserved, rows, max);
            && out == base + pieces && Pieces(base, pieces, all) && reserved <= pieces
            && (pieces == [] ==> |base| >= max || AllTaken(rows, base))
    decreases |rows|
  {
    if rows != [] && |base + reserved| < max && |reserved| < Min(2, max) {
      if KeyOf(rows[0]) in Keys(base + reserved) || Crosses(rows[0], reserved) {
        PiecesHold(base, reserved, rows[1..], all, max);
      } else {
        KeysGrow(base, reserved);
        assert base + reserved + [rows[0]] == base + (reserved + [rows[0]]);
        PiecesHold(base, reserved + [rows[0]], rows[1..], all, max);
      }
    }
    assert reserved == [] ==> base + reserved == base;
  }

  lemma KeysGrow(front: seq<Row>, back: seq<Row>)
    ensures Keys(front) <= Keys(front + back)
  {
  }

  // What reserving leaves: the selection as it was, and at most two new pieces, apart from each
  // other and of one helper; none only when the budget is spent or every piece is selected.
  ghost predicate Reserves(selected: seq<Row>, helpers: seq<seq<Row>>, max: nat, out: seq<Row>) {
    && selected <= out
    && (out == selected ==> |selected| >= max || forall rows :: rows in helpers ==> AllTaken(rows, selected))
    && (out != selected ==> exists rows :: rows in helpers && Pieces(selected, out[|selected|..], rows))
  }

  lemma {:induction false} ReservedHolds(selected: seq<Row>, helpers: seq<seq<Row>>, max: nat)
    ensures Reserves(selected, helpers, max, Reserved(selected, helpers, max))
    decreases |helpers|
  {
    if helpers != [] && |selected| < max {
      var (after, pieces) := ReservedFrom(selected, [], helpers[0], max);
      assert selected + [] == selected;
      PiecesHold(selected, [], helpers[0], helpers[0], max);
      if pieces == [] {
        assert after == selected;
        ReservedHolds(selected, helpers[1..], max);
      } else {
        assert after[|selected|..] == pieces;
      }
    }
  }

  method ReserveHelpers(selected: seq<Row>, helpers: seq<seq<Row>>, max: nat) returns (out: seq<Row>)
    ensures out == Reserved(selected, helpers, max)
    ensures Reserves(selected, helpers, max, out)
  {
    out := selected;
    var rest := helpers;
    while rest != [] && |out| < max
      invariant Reserved(selected, helpers, max) == Reserved(out, rest, max)
      decreases |rest|
    {
      var any;
      var before := out;
      out, any := ReservePieces(before, rest[0], max);
      if any {
        break;
      }
      rest := rest[1..];
    }
    ReservedHolds(selected, helpers, max);
  }

  method SelectRows(plan: Plan, max: nat, ghost text: string) returns (out: seq<Row>)
    ensures out == Selected(plan, max)
    ensures ExactPlan(plan, text) ==> Sound(out, text, max) && Avoided(out, plan.avoided)
  {
    var selected := OfferRows([], Take(plan.selectors, Min(3, max)), max);
    selected := ReserveHelpers(selected, plan.helpers, max);
    selected := OfferRows(selected, Take(plan.functions, Min(plan.roots, max)), max);
    selected := OfferFirst(selected, plan.secondHop, max);
    selected := OfferRows(selected, plan.neighbors, max);
    selected := OfferRows(selected, plan.ranked, max);
    out := Allowed(selected, plan.avoided);
    if plan.avoided != [] {
      out := OfferRows(out, Allowed(plan.neighbors + plan.functions, plan.avoided), max);
    }
    if ExactPlan(plan, text) { SelectionIsSound(plan, text, max); }
  }

  /******* What every stage keeps *******/

  // Exact rows with distinct spans, within the budget.
  ghost predicate Sound(rows: seq<Row>, text: string, max: nat) {
    DistinctKeys(rows) && |rows| <= max && AllExact(rows, text)
  }

  ghost predicate AllExact(rows: seq<Row>, text: string) {
    forall i :: 0 <= i < |rows| ==> Exact(rows[i], text)
  }

  lemma AppendKeepsSound(selected: seq<Row>, row: Row, text: string, max: nat)
    requires Sound(selected, text, max) && Exact(row, text) && |selected| < max && KeyOf(row) !in Keys(selected)
    ensures Sound(selected + [row], text, max)
  {
  }

  lemma {:induction false} OfferingKeepsSound(selected: seq<Row>, rows: seq<Row>, text: string, max: nat)
    requires Sound(selected, text, max) && AllExact(rows, text)
    ensures Sound(OfferedAll(selected, rows, max), text, max)
  {
    if rows != [] {
      var front, last := rows[..|rows| - 1], rows[|rows| - 1];
      OfferingKeepsSound(selected, front, text, max);
      var before := OfferedAll(selected, front, max);
      if |before| < max && KeyOf(last) !in Keys(before) { AppendKeepsSound(before, last, text, max); }
    }
  }

  lemma {:induction false} FirstKeepsSound(selected: seq<Row>, rows: seq<Row>, text: string, max: nat)
    requires Sound(selected, text, max) && AllExact(rows, text)
    ensures Sound(FirstOffered(selected, rows, max), text, max)
    decreases |rows|
  {
    if rows != [] && |selected| < max {
      if KeyOf(rows[0]) in Keys(selected) {
        FirstKeepsSound(selected, rows[1..], text, max);
      } else {
        AppendKeepsSound(selected, rows[0], text, max);
      }
    }
  }

  lemma {:induction false} PiecesKeepSound(selected: seq<Row>, reserved: seq<Row>, rows: seq<Row>, text: string,
                                           max: nat)
    requires Sound(selected, text, max) && AllExact(rows, text)
    ensures Sound(ReservedFrom(selected, reserved, rows, max).0, text, max)
    decreases |rows|
  {
    if rows != [] && |selected| < max {
      PiecesKeepSound(selected, reserved, rows[1..], text, max);
      if KeyOf(rows[0]) !in Keys(selected) {
        AppendKeepsSound(selected, rows[0], text, max);
        PiecesKeepSound(selected + [rows[0]], reserved + [rows[0]], rows[1..], text, max);
      }
    }
  }

  lemma {:induction false} HelpersKeepSound(selected: seq<Row>, helpers: seq<seq<Row>>, text: string, max: nat)
    requires Sound(selected, text, max) && forall i :: 0 <= i < |helpers| ==> AllExact(helpers[i], text)
    ensures Sound(Reserved(selected, helpers, max), text, max)
    decreases |helpers|
  {
    if helpers != [] && |selected| < max {
      PiecesKeepSound(selected, [], helpers[0], text, max);
      HelpersKeepSound(ReservedFrom(selected, [], helpers[0], max).0, helpers[1..], text, max);
    }
  }

  ghost predicate Avoided(rows: seq<Row>, avoided: seq<Span>) {
    forall i :: 0 <= i < |rows| ==> Avoids(rows[i], avoided)
  }

  lemma {:induction false} AllowedIsASublist(rows: seq<Row>, avoided: seq<Span>)
    ensures |Allowed(rows, avoided)| <= |rows|
    ensures forall row :: row in Allowed(rows, avoided) <==> row in rows && Avoids(row, avoided)
    ensures DistinctKeys(rows) ==> DistinctKeys(Allowed(rows, avoided))
  {
    if rows != [] {
      var front, last := rows[..|rows| - 1], rows[|rows| - 1];
      AllowedIsASublist(front, avoided);
      assert rows == front + [last];
      forall i | 0 <= i < |Allowed(front, avoided)|
        ensures Allowed(front, avoided)[i] in front
      {
      }
    }
  }

  lemma AllowedKeepsSound(rows: seq<Row>, avoided: seq<Span>, text: string, max: nat)
    requires Sound(rows, text, max)
    ensures Sound(Allowed(rows, avoided), text, max) && Avoided(Allowed(rows, avoided), avoided)
  {
    AllowedIsASublist(rows, avoided);
    AllowedKeepsExact(rows, avoided, text);
  }

  lemma AllowedKeepsExact(rows: seq<Row>, avoided: seq<Span>, text: string)
    requires AllExact(rows, text)
    ensures AllExact(Allowed(rows, avoided), text) && Avoided(Allowed(rows, avoided), avoided)
  {
    AllowedIsASublist(rows, avoided);
    forall i | 0 <= i < |Allowed(rows, avoided)|
      ensures Exact(Allowed(rows, avoided)[i], text) && Avoids(Allowed(rows, avoided)[i], avoided)
    {
      assert Allowed(rows, avoided)[i] in rows;
    }
  }

  lemma {:induction false} OfferingKeepsAvoided(selected: seq<Row>, rows: seq<Row>, avoided: seq<Span>, max: nat)
    requires Avoided(selected, avoided) && Avoided(rows, avoided)
    ensures Avoided(OfferedAll(selected, rows, max), avoided)
  {
    if rows != [] { OfferingKeepsAvoided(selected, rows[..|rows| - 1], avoided, max); }
  }

  // Every list of a plan holds exact rows of the text.
  ghost predicate ExactPlan(plan: Plan, text: string) {
    && AllExact(plan.selectors, text) && AllExact(plan.functions, text) && AllExact(plan.secondHop, text)
    && AllExact(plan.neighbors, text) && AllExact(plan.ranked, text)
    && forall i :: 0 <= i < |plan.helpers| ==> AllExact(plan.helpers[i], text)
  }

  lemma StagesKeepSound(plan: Plan, text: string, max: nat)
    requires ExactPlan(plan, text)
    ensures Sound(BeforeAvoiding(plan, max), text, max)
  {
    var selectors := OfferedAll([], Take(plan.selectors, Min(3, max)), max);
    OfferingKeepsSound([], Take(plan.selectors, Min(3, max)), text, max);
    HelpersKeepSound(selectors, plan.helpers, text, max);
    var reserved := Reserved(selectors, plan.helpers, max);
    OfferingKeepsSound(reserved, Take(plan.functions, Min(plan.roots, max)), text, max);
    var roots := OfferedAll(reserved, Take(plan.functions, Min(plan.roots, max)), max);
    FirstKeepsSound(roots, plan.secondHop, text, max);
    var hop := FirstOffered(roots, plan.secondHop, max);
    OfferingKeepsSound(hop, plan.neighbors, text, max);
    OfferingKeepsSound(OfferedAll(hop, plan.neighbors, max), plan.ranked, text, max);
  }

  // Whatever the rankings, the selected rows are exact, distinct, within the budget, and none
  // lies inside an avoided function.
  lemma SelectionIsSound(plan: Plan, text: string, max: nat)
    requires ExactPlan(plan, text)
    ensures Sound(Selected(plan, max), text, max) && Avoided(Selected(plan, max), plan.avoided)
  {
    StagesKeepSound(plan, text, max);
    var before := BeforeAvoiding(plan, max);
    AllowedKeepsSound(before, plan.avoided, text, max);
    var refill := plan.neighbors + plan.functions;
    AllowedKeepsExact(refill, plan.avoided, text);
    OfferingKeepsSound(Allowed(before, plan.avoided), Allowed(refill, plan.avoided), text, max);
    OfferingKeepsAvoided(Allowed(before, plan.avoided), Allowed(refill, plan.avoided), plan.avoided, max);
  }

  /******* Free slots go to callees *******/

  lemma {:induction false} OfferingAddsOnly(selected: seq<Row>, rows: seq<Row>, max: nat)
    ensures var out := OfferedAll(selected, rows, max);
            && selected <= out && Keys(out) <= Keys(selected) + Keys(rows)
            && (|out| >= max || Keys(rows) <= Keys(out))
            && (|selected| >= max ==> out == selected)
  {
    if rows != [] {
      var front, last := rows[..|rows| - 1], rows[|rows| - 1];
      OfferingAddsOnly(selected, front, max);
      assert rows == front + [last];
      KeysOfOneMore(front, last);
      KeysOfOneMore(OfferedAll(selected, front, max), last);
    }
  }

  lemma {:induction false} FirstAddsOnly(selected: seq<Row>, rows: seq<Row>, max: nat)
    ensures var out := FirstOffered(selected, rows, max);
            && selected <= out && Keys(out) <= Keys(selected) + Keys(rows)
            && (|selected| >= max ==> out == selected)
    decreases |rows|
  {
    if rows != [] && |selected| < max {
      KeysOfOneMore(selected, rows[0]);
      if KeyOf(rows[0]) in Keys(selected) {
        FirstAddsOnly(selected, rows[1..], max);
        assert Keys(rows[1..]) <= Keys(rows);
      } else {
        assert KeyOf(rows[0]) in Keys(rows);
      }
    }
  }

  // The neighbors of a plan, when there is a slot left to look for them: what the traversal
  // finds, the second-hop rows among them.
  ghost predicate PlansCallees(plan: Plan, max: nat, calls: Calls) {
    if |Roots(plan, max)| >= max then plan.secondHop == [] && plan.neighbors == []
    else && Keys(plan.neighbors) == Callees(calls, Keys(Roots(plan, max))) - Keys(Roots(plan, max))
         && Keys(plan.secondHop) <= Keys(plan.neighbors)
  }

  // Behind the roots, slots go to their callees: nothing else takes one unless every callee
  // within two calls has one, or is a root itself.
  lemma FreeSlotsGoToCallees(plan: Plan, max: nat, calls: Calls)
    requires PlansCallees(plan, max, calls)
    ensures var roots := Keys(Roots(plan, max));
            var out := Keys(BeforeAvoiding(plan, max));
            && roots <= out
            && (out <= roots + Callees(calls, roots) || Callees(calls, roots) <= out)
  {
    var roots := Roots(plan, max);
    var hop := FirstOffered(roots, plan.secondHop, max);
    var callees := WithCallees(plan, max);
    FirstAddsOnly(roots, plan.secondHop, max);
    OfferingAddsOnly(hop, plan.neighbors, max);
    OfferingAddsOnly(callees, plan.ranked, max);
    PrefixKeys(roots, hop);
    PrefixKeys(hop, callees);
    PrefixKeys(callees, BeforeAvoiding(plan, max));
  }

  lemma PrefixKeys(front: seq<Row>, all: seq<Row>)
    requires front <= all
    ensures Keys(front) <= Keys(all)
  {
    assert all == front + all[|front|..];
    KeysGrow(front, all[|front|..]);
  }

  /******* Ids *******/

  datatype Unit = Unit(id: string, row: Row)

  // How many rows come from the window.
  function CountOf(rows: seq<Row>, window: string): nat {
    if rows == [] then 0
    else CountOf(rows[..|rows| - 1], window) + if rows[|rows| - 1].window == window then 1 else 0
  }

  function IdAt(rows: seq<Row>, i: nat): string
    requires i < |rows|
  {
    rows[i].window + "u" + Decimal(CountOf(rows[..i + 1], rows[i].window))
  }

  function Units(rows: seq<Row>): (units: seq<Unit>)
    ensures |units| == |rows|
    ensures forall i :: 0 <= i < |rows| ==> units[i] == Unit(IdAt(rows, i), rows[i])
  {
    seq(|rows|, i requires 0 <= i < |rows| => Unit(IdAt(rows, i), rows[i]))
  }

  function Lookup(counts: map<string, nat>, window: string): nat {
    if window in counts then counts[window] else 0
  }

  ghost predicate Counted(counts: map<string, nat>, rows: seq<Row>) {
    forall w {:trigger Lookup(counts, w)} :: Lookup(counts, w) == CountOf(rows, w)
  }

  lemma CountedOneMore(counts: map<string, nat>, front: seq<Row>, last: Row)
    requires Counted(counts, front)
    ensures Counted(counts[last.window := Lookup(counts, last.window) + 1], front + [last])
  {
    assert (front + [last])[..|front|] == front;
    var after := counts[last.window := Lookup(counts, last.window) + 1];
    forall w
      ensures Lookup(after, w) == CountOf(front + [last], w)
    {
      assert Lookup(counts, w) == CountOf(front, w);
    }
  }

  method NameUnits(rows: seq<Row>) returns (units: seq<Unit>)
    ensures units == Units(rows)
  {
    var perWindow: map<string, nat> := map[];
    units := [];
    for i := 0 to |rows|
      invariant |units| == i && forall k :: 0 <= k < i ==> units[k] == Unit(IdAt(rows, k), rows[k])
      invariant Counted(perWindow, rows[..i])
    {
      assert rows[..i + 1] == rows[..i] + [rows[i]];
      CountedOneMore(perWindow, rows[..i], rows[i]);
      var wid := rows[i].window;
      perWindow := perWindow[wid := Lookup(perWindow, wid) + 1];
      assert Lookup(perWindow, wid) == CountOf(rows[..i + 1], wid);
      units := units + [Unit(wid + "u" + Decimal(perWindow[wid]), rows[i])];
    }
  }

  predicate Digits(text: string) {
    forall i :: 0 <= i < |text| ==> '0' <= text[i] <= '9'
  }

  // A window id: "w" and digits.
  predicate IsWindowId(window: string) {
    window != "" && window[0] == 'w' && Digits(window[1..])
  }

  ghost predicate Numbered(rows: seq<Row>) {
    forall i :: 0 <= i < |rows| ==> IsWindowId(rows[i].window)
  }

  lemma {:induction false} DecimalIsDigits(n: nat)
    ensures Digits(Decimal(n)) && Decimal(n) != ""
  {
    if n >= 10 { DecimalIsDigits(n / 10); }
  }

  // An id splits at its "u" in one way only.
  lemma IdSplits(a: string, b: string, c: string, d: string)
    requires Digits(a) && Digits(c) && a + "u" + b == c + "u" + d
    ensures a == c && b == d
  {
    var left, right := a + "u" + b, c + "u" + d;
    assert left[|a|] == 'u' && right[|c|] == 'u';
    assert forall k :: 0 <= k < |a| ==> left[k] == a[k];
    assert forall k :: 0 <= k < |c| ==> right[k] == c[k];
    assert a == left[..|a|] && c == right[..|c|];
    assert b == left[|a| + 1..] && d == right[|c| + 1..];
  }

  lemma {:induction false} CountGrows(rows: seq<Row>, i: nat, j: nat)
    requires i < j < |rows| && rows[i].window == rows[j].window
    ensures CountOf(rows[..i + 1], rows[i].window) < CountOf(rows[..j + 1], rows[j].window)
  {
    var w := rows[i].window;
    CountIsMonotone(rows, i + 1, j, w);
    assert rows[..j + 1][..j] == rows[..j];
  }

  lemma {:induction false} CountIsMonotone(rows: seq<Row>, i: nat, j: nat, window: string)
    requires i <= j <= |rows|
    ensures CountOf(rows[..i], window) <= CountOf(rows[..j], window)
  {
    if i < j {
      CountIsMonotone(rows, i, j - 1, window);
      assert rows[..j][..j - 1] == rows[..j - 1];
    }
  }

  lemma IdsAreDistinct(rows: seq<Row>, i: nat, j: nat)
    requires Numbered(rows) && i < j < |rows|
    ensures IdAt(rows, i) != IdAt(rows, j)
  {
    var a, c := rows[i].window[1..], rows[j].window[1..];
    var m, n := CountOf(rows[..i + 1], rows[i].window), CountOf(rows[..j + 1], rows[j].window);
    if IdAt(rows, i) == IdAt(rows, j) {
      assert a + "u" + Decimal(m) == IdAt(rows, i)[1..] && c + "u" + Decimal(n) == IdAt(rows, j)[1..];
      IdSplits(a, Decimal(m), c, Decimal(n));
      assert rows[i].window == "w" + a && rows[j].window == "w" + c;
      DecimalIsInjective(m, n);
      CountGrows(rows, i, j);
    }
  }

  /******* The wire and the converter *******/

  // The digest of a fragment, and the digests rejected in this attempt.
  datatype Rejections = Rejections(digest: string -> string, rejected: set<string>)

  predicate IsSelectable(unit: Unit, r: Rejections) {
    r.digest(unit.row.source) !in r.rejected
  }

  function Selectable(units: seq<Unit>, r: Rejections): seq<Unit> {
    if units == [] then []
    else
      Selectable(units[..|units| - 1], r) + if IsSelectable(units[|units| - 1], r) then [units[|units| - 1]] else []
  }

  // The ids the constrained wire offers.
  function OfferedIds(units: seq<Unit>, r: Rejections): set<string> {
    set unit | unit in Selectable(units, r) && unit.id != "" :: unit.id
  }

  datatype Resolution = Resolved(unit: Unit) | MissingId | UnknownId | Refused | Drifted

  function FirstWithId(units: seq<Unit>, id: string): (i: int)
    ensures i == -1 || (0 <= i < |units| && units[i].id == id)
  {
    if units == [] then -1
    else if units[0].id == id then 0
    else
      var i := FirstWithId(units[1..], id);
      if i == -1 then -1 else i + 1
  }

  // What the converter makes of an id, against the source as it is now.
  function Resolve(source: string, units: seq<Unit>, r: Rejections, id: string): Resolution {
    if id == "" then MissingId
    else
      var i := FirstWithId(units, id);
      if i == -1 then UnknownId
      else
        var unit := units[i];
        if !IsSelectable(unit, r) then Refused
        else if unit.row.source == ""
                || SourceWindows.Slice(source, unit.row.offset, unit.row.offset + |unit.row.source|) != unit.row.source
        then Drifted
        else Resolved(unit)
  }

  lemma {:induction false} SelectableHolds(units: seq<Unit>, r: Rejections)
    ensures forall unit :: unit in Selectable(units, r) <==> unit in units && IsSelectable(unit, r)
  {
    if units != [] {
      SelectableHolds(units[..|units| - 1], r);
      assert units == units[..|units| - 1] + [units[|units| - 1]];
    }
  }

  ghost predicate DistinctIds(units: seq<Unit>) {
    forall i, j :: 0 <= i < j < |units| ==> units[i].id != units[j].id
  }

  lemma {:induction false} FirstIsOnly(units: seq<Unit>, id: string, k: nat)
    requires DistinctIds(units) && k < |units| && units[k].id == id
    ensures FirstWithId(units, id) == k
  {
    if k > 0 {
      assert units[0].id != units[k].id;
      FirstIsOnly(units[1..], id, k - 1);
    }
  }

  ghost predicate ExactUnits(units: seq<Unit>, text: string) {
    forall i :: 0 <= i < |units| ==> Exact(units[i].row, text)
  }

  // The wire and the converter agree: an id resolves exactly when it is offered, to the unit
  // the prompt showed under it, and no id ever drifts.
  lemma OfferedIdsResolve(text: string, units: seq<Unit>, r: Rejections, id: string)
    requires ExactUnits(units, text) && DistinctIds(units)
    ensures Resolve(text, units, r, id) != Drifted
    ensures Resolve(text, units, r, id).Resolved? <==> id in OfferedIds(units, r)
    ensures forall k :: 0 <= k < |units| && units[k].id == id && id in OfferedIds(units, r)
              ==> Resolve(text, units, r, id) == Resolved(units[k])
  {
    SelectableHolds(units, r);
    var i := FirstWithId(units, id);
    if i >= 0 {
      assert Exact(units[i].row, text);
      assert units[i] in units;
    }
    forall k | 0 <= k < |units| && units[k].id == id
      ensures i == k
    {
      FirstIsOnly(units, id, k);
    }
    if id in OfferedIds(units, r) {
      var unit :| unit in Selectable(units, r) && unit.id == id;
      var k :| 0 <= k < |units| && units[k] == unit;
    }
  }

  /******* All together *******/

  // A row of a plan is a collected row, whatever reason it now states.
  ghost predicate DrawnFrom(rows: seq<Row>, collected: seq<Row>) {
    forall i :: 0 <= i < |rows| ==> IsDrawn(rows[i], collected)
  }

  ghost predicate IsDrawn(row: Row, collected: seq<Row>) {
    exists k :: 0 <= k < |collected| && row == collected[k].(reason := row.reason)
  }

  ghost predicate DrawnPlan(plan: Plan, collected: seq<Row>) {
    && DrawnFrom(plan.selectors, collected) && DrawnFrom(plan.functions, collected)
    && DrawnFrom(plan.secondHop, collected) && DrawnFrom(plan.neighbors, collected) && DrawnFrom(plan.ranked, collected)
    && forall i :: 0 <= i < |plan.helpers| ==> DrawnFrom(plan.helpers[i], collected)
  }

  // What every row of a plan has in common.
  ghost predicate Fit(row: Row, text: string) {
    Exact(row, text) && IsWindowId(row.window)
  }

  ghost predicate AllFit(rows: seq<Row>, text: string) {
    forall i :: 0 <= i < |rows| ==> Fit(rows[i], text)
  }

  lemma DrawnFits(rows: seq<Row>, collected: seq<Row>, text: string)
    requires AllFit(collected, text) && DrawnFrom(rows, collected)
    ensures AllFit(rows, text) && AllExact(rows, text)
  {
    forall i | 0 <= i < |rows|
      ensures Fit(rows[i], text)
    {
      assert IsDrawn(rows[i], collected);
    }
  }

  lemma DrawnPlanFits(plan: Plan, collected: seq<Row>, text: string)
    requires AllFit(collected, text) && DrawnPlan(plan, collected)
    ensures ExactPlan(plan, text)
  {
    DrawnFits(plan.selectors, collected, text);
    DrawnFits(plan.functions, collected, text);
    DrawnFits(plan.secondHop, collected, text);
    DrawnFits(plan.neighbors, collected, text);
    DrawnFits(plan.ranked, collected, text);
    forall i | 0 <= i < |plan.helpers|
      ensures AllExact(plan.helpers[i], text)
    {
      DrawnFits(plan.helpers[i], collected, text);
    }
  }

  // Selection only picks rows of the plan.
  lemma {:induction false} OfferedFrom(selected: seq<Row>, rows: seq<Row>, max: nat, collected: seq<Row>)
    requires DrawnFrom(selected, collected) && DrawnFrom(rows, collected)
    ensures DrawnFrom(OfferedAll(selected, rows, max), collected)
  {
    if rows != [] { OfferedFrom(selected, rows[..|rows| - 1], max, collected); }
  }

  lemma {:induction false} FirstFrom(selected: seq<Row>, rows: seq<Row>, max: nat, collected: seq<Row>)
    requires DrawnFrom(selected, collected) && DrawnFrom(rows, collected)
    ensures DrawnFrom(FirstOffered(selected, rows, max), collected)
    decreases |rows|
  {
    if rows != [] { FirstFrom(selected, rows[1..], max, collected); }
  }

  lemma {:induction false} PiecesFrom(selected: seq<Row>, reserved: seq<Row>, rows: seq<Row>, max: nat,
                                      collected: seq<Row>)
    requires DrawnFrom(selected, collected) && DrawnFrom(rows, collected)
    ensures DrawnFrom(ReservedFrom(selected, reserved, rows, max).0, collected)
    decreases |rows|
  {
    if rows != [] {
      PiecesFrom(selected, reserved, rows[1..], max, collected);
      PiecesFrom(selected + [rows[0]], reserved + [rows[0]], rows[1..], max, collected);
    }
  }

  lemma {:induction false} HelpersFrom(selected: seq<Row>, helpers: seq<seq<Row>>, max: nat, collected: seq<Row>)
    requires DrawnFrom(selected, collected) && forall i :: 0 <= i < |helpers| ==> DrawnFrom(helpers[i], collected)
    ensures DrawnFrom(Reserved(selected, helpers, max), collected)
    decreases |helpers|
  {
    if helpers != [] {
      PiecesFrom(selected, [], helpers[0], max, collected);
      HelpersFrom(ReservedFrom(selected, [], helpers[0], max).0, helpers[1..], max, collected);
    }
  }

  lemma AllowedFrom(rows: seq<Row>, avoided: seq<Span>, collected: seq<Row>)
    requires DrawnFrom(rows, collected)
    ensures DrawnFrom(Allowed(rows, avoided), collected)
  {
    AllowedIsASublist(rows, avoided);
    forall i | 0 <= i < |Allowed(rows, avoided)|
      ensures IsDrawn(Allowed(rows, avoided)[i], collected)
    {
      assert Allowed(rows, avoided)[i] in rows;
    }
  }

  lemma StagesDraw(plan: Plan, max: nat, collected: seq<Row>)
    requires DrawnPlan(plan, collected)
    ensures DrawnFrom(BeforeAvoiding(plan, max), collected)
  {
    var selectors := OfferedAll([], Take(plan.selectors, Min(3, max)), max);
    OfferedFrom([], Take(plan.selectors, Min(3, max)), max, collected);
    HelpersFrom(selectors, plan.helpers, max, collected);
    var reserved := Reserved(selectors, plan.helpers, max);
    OfferedFrom(reserved, Take(plan.functions, Min(plan.roots, max)), max, collected);
    var roots := OfferedAll(reserved, Take(plan.functions, Min(plan.roots, max)), max);
    FirstFrom(roots, plan.secondHop, max, collected);
    var hop := FirstOffered(roots, plan.secondHop, max);
    OfferedFrom(hop, plan.neighbors, max, collected);
    OfferedFrom(OfferedAll(hop, plan.neighbors, max), plan.ranked, max, collected);
  }

  lemma SelectionDraws(plan: Plan, max: nat, collected: seq<Row>)
    requires DrawnPlan(plan, collected)
    ensures DrawnFrom(Selected(plan, max), collected)
  {
    StagesDraw(plan, max, collected);
    AllowedFrom(BeforeAvoiding(plan, max), plan.avoided, collected);
    AllowedFrom(plan.neighbors + plan.functions, plan.avoided, collected);
    OfferedFrom(Allowed(BeforeAvoiding(plan, max), plan.avoided),
                Allowed(plan.neighbors + plan.functions, plan.avoided), max, collected);
  }

  // The candidates as they are found: in a window of the source, or a function of the text
  // filed under a window.
  ghost predicate WellFound(candidates: seq<Candidate>, windows: seq<SourceWindows.Window>, text: string) {
    forall i :: 0 <= i < |candidates|
      ==> InBounds(candidates[i], windows, text) && (candidates[i].InText? ==> IsWindowId(candidates[i].nearest))
  }

  ghost predicate NumberedWindows(windows: seq<SourceWindows.Window>) {
    forall k :: 0 <= k < |windows| ==> IsWindowId(windows[k].id)
  }

  lemma {:induction false} CollectedIsNumbered(text: string, windows: seq<SourceWindows.Window>,
                                               candidates: seq<Candidate>, safe: Check)
    requires WellFound(candidates, windows, text) && NumberedWindows(windows)
    ensures Numbered(Collected(text, windows, candidates, safe))
  {
    if candidates != [] {
      CollectedIsNumbered(text, windows, candidates[..|candidates| - 1], safe);
    }
  }

  lemma WindowsAreNumbered(source: SourceWindows.Source, keywords: seq<SourceWindows.Keyword>, maxChars: nat,
                           maxWindows: nat)
    ensures var windows := SourceWindows.Windows(source, keywords, maxChars, maxWindows);
            ExactWindows(windows, source.text) && NumberedWindows(windows)
  {
    var windows := SourceWindows.Windows(source, keywords, maxChars, maxWindows);
    SourceWindows.WindowsAreExact(source, keywords, maxChars, maxWindows);
    forall k | 0 <= k < |windows|
      ensures IsWindowId(windows[k].id)
    {
      DecimalIsDigits(k + 1);
      assert ("w" + Decimal(k + 1))[1..] == Decimal(k + 1);
    }
  }

  lemma UnitsOfPlan(text: string, plan: Plan, max: nat, collected: seq<Row>)
    requires AllFit(collected, text) && DrawnPlan(plan, collected)
    ensures var units := Units(Selected(plan, max));
            && |units| <= max
            && ExactUnits(units, text) && DistinctIds(units)
            && (forall i, j :: 0 <= i < j < |units| ==> KeyOf(units[i].row) != KeyOf(units[j].row))
            && (forall i :: 0 <= i < |units| ==> Avoids(units[i].row, plan.avoided))
  {
    var rows := Selected(plan, max);
    DrawnPlanFits(plan, collected, text);
    SelectionIsSound(plan, text, max);
    SelectionDraws(plan, max, collected);
    DrawnFits(rows, collected, text);
    forall i, j | 0 <= i < j < |rows|
      ensures IdAt(rows, i) != IdAt(rows, j)
    {
      IdsAreDistinct(rows, i, j);
    }
  }

  lemma SelectedAreWhole(plan: Plan, max: nat, collected: seq<Row>, text: string, k: BraceScanner.Chars)
    requires DrawnPlan(plan, collected) && forall i :: 0 <= i < |collected| ==> WholeFunction(collected[i], text, k)
    ensures forall i :: 0 <= i < |Selected(plan, max)| ==> WholeFunction(Selected(plan, max)[i], text, k)
  {
    SelectionDraws(plan, max, collected);
    forall i | 0 <= i < |Selected(plan, max)|
      ensures WholeFunction(Selected(plan, max)[i], text, k)
    {
      assert IsDrawn(Selected(plan, max)[i], collected);
    }
  }

  // From a source to the ids of the wire: at most so many units, exact slices with distinct
  // spans and ids, outside the avoided functions, whole where they claim to be functions; an id
  // resolves exactly when it is offered, and to no other bytes than the prompt showed.
  lemma UnitsAreExact(source: SourceWindows.Source, keywords: seq<SourceWindows.Keyword>, maxChars: nat,
                      maxWindows: nat,
                      candidates: seq<Candidate>, safe: Check, k: BraceScanner.Chars, plan: Plan, max: nat,
                      r: Rejections, id: string)
    requires RefusesBlank(safe)
    requires WellFound(candidates, SourceWindows.Windows(source, keywords, maxChars, maxWindows), source.text)
    requires DrawnPlan(plan, Collected(source.text, SourceWindows.Windows(source, keywords, maxChars, maxWindows),
                                       candidates, safe))
    ensures var units := Units(Selected(plan, max));
            && |units| <= max
            && ExactUnits(units, source.text) && DistinctIds(units)
            && (forall i, j :: 0 <= i < j < |units| ==> KeyOf(units[i].row) != KeyOf(units[j].row))
            && (forall i :: 0 <= i < |units| ==> Avoids(units[i].row, plan.avoided))
            && (ScansFunctions(safe, k) ==> forall i ::
                  0 <= i < |units| ==> WholeFunction(units[i].row, source.text, k))
            && Resolve(source.text, units, r, id) != Drifted
            && (Resolve(source.text, units, r, id).Resolved? <==> id in OfferedIds(units, r))
  {
    var windows := SourceWindows.Windows(source, keywords, maxChars, maxWindows);
    var collected := Collected(source.text, windows, candidates, safe);
    WindowsAreNumbered(source, keywords, maxChars, maxWindows);
    CollectedIsExact(source.text, windows, candidates, safe);
    CollectedIsNumbered(source.text, windows, candidates, safe);
    UnitsOfPlan(source.text, plan, max, collected);
    if ScansFunctions(safe, k) {
      FunctionRowsAreWhole(source.text, windows, candidates, safe, k);
      SelectedAreWhole(plan, max, collected, source.text, k);
    }
    OfferedIdsResolve(source.text, Units(Selected(plan, max)), r, id);
  }

  lemma ResolvedOccurs(source: string, units: seq<Unit>, r: Rejections, id: string, unit: Unit)
    requires Resolve(source, units, r, id) == Resolved(unit)
    ensures unit.row.source != "" && OccursAt(source, unit.row.source, unit.row.offset) && IsSelectable(unit, r)
  {
    var fragment := unit.row.source;
    assert |SourceWindows.Slice(source, unit.row.offset, unit.row.offset + |fragment|)| == |fragment|;
  }

  // A compiled anchor within its caps, whose first-occurrence replace performs the edit in
  // place exactly when its replacement repeats with the shift to the first copy.
  ghost predicate Lands(source: string, start: nat, find: string, replace: string, maxFind: int, maxReplace: int,
                        b: AnchorCompiler.Anchor) {
    && |b.find| <= maxFind && |b.replace| <= maxReplace
    && 0 <= Find(source, b.find, 0) <= b.start < Find(source, b.find, 0) + |b.find|
    && start + |find| <= |source|
    && (ReplaceFirst(source, b.find, b.replace) == Splice(source, start, |find|, replace)
        <==> RepeatsWithShift(b.find, b.replace, b.start - Find(source, b.find, 0)))
  }

  lemma EditInPlaceLands(source: string, g: AnchorCompiler.Guards, start: nat, find: string, replace: string,
                         maxFind: int, maxReplace: int, compiled: AnchorCompiler.Outcome<AnchorCompiler.Anchor>)
    requires find != "" && OccursAt(source, find, start)
    requires compiled == AnchorCompiler.Compiled(source, g, start, find, replace, maxFind, maxReplace)
    ensures compiled.Ok? ==> Lands(source, start, find, replace, maxFind, maxReplace, compiled.value)
  {
    if compiled.Ok? {
      AnchorCompiler.CompiledEditIsExact(source, g, start, find, replace, maxFind, maxReplace, compiled.value);
    }
  }

  // The edit a model makes by id is compiled against the bytes it was shown, and the
  // first-occurrence replace applies it there exactly under the anchor compiler's condition.
  lemma ChosenEditIsExact(source: string, units: seq<Unit>, r: Rejections, id: string, unit: Unit,
                          g: AnchorCompiler.Guards, replace: string, maxFind: int, maxReplace: int)
    requires Resolve(source, units, r, id) == Resolved(unit)
    ensures unit.row.source != "" && OccursAt(source, unit.row.source, unit.row.offset) && IsSelectable(unit, r)
    ensures var compiled := AnchorCompiler.Compiled(source, g, unit.row.offset, unit.row.source, replace, maxFind,
                                                    maxReplace);
            compiled.Ok? ==> Lands(source, unit.row.offset, unit.row.source, replace, maxFind, maxReplace,
                                   compiled.value)
  {
    ResolvedOccurs(source, units, r, id, unit);
    var compiled := AnchorCompiler.Compiled(source, g, unit.row.offset, unit.row.source, replace, maxFind, maxReplace);
    EditInPlaceLands(source, g, unit.row.offset, unit.row.source, replace, maxFind, maxReplace, compiled);
  }

  // What the statement scanner proposes for three equal statements: each alone, and runs of them.
  const THREE_STATEMENTS: seq<Candidate> :=
    [InWindow(0, 0, 5, Statement), InWindow(0, 5, 10, Statement), InWindow(0, 10, 15, Statement),
     InWindow(0, 0, 10, Sequence), InWindow(0, 0, 15, Sequence), InWindow(0, 5, 15, Sequence)]

  // On this text the structural check comes down to the least length of a fragment.
  function LongEnough(): Check {
    (fragment: string, at: nat, kind: Kind) => |fragment| >= 6
  }

  function Run(reason: string, offset: nat, source: string): Row {
    Row("w1", offset, offset + |source|, reason, Sequence, source)
  }

  // The units offered for a text of three equal statements, with nothing to draw on but these.
  function UnitsOfStatements(text: string): seq<Unit> {
    var windows := SourceWindows.Windows(AnchorCompiler.Plainly(text), SourceWindows.DEFAULT_KEYWORDS, 2000, 2);
    var ranked := Collected(text, windows, THREE_STATEMENTS, LongEnough());
    Units(Selected(Plan([], [], [], 2, [], [], ranked, []), 4))
  }

  // The condition fails on a real unit: two of three equal statements count once, and the edit
  // of the second and third, compiled as it stands, replaces the first and second.
  lemma OverlapMisplacesEdit(g: AnchorCompiler.Guards, r: Rejections, text: string, units: seq<Unit>, find: string)
    requires g == AnchorCompiler.Guards(s => s, s => false, (a, b) => false, (s, n, a, b) => false, (a, b) => false)
    requires text == "a(1);a(1);a(1);" && find == "a(1);a(1);" && units == UnitsOfStatements(text)
    requires r.digest(find) !in r.rejected
    ensures |units| == 3 && Resolve(text, units, r, "w1u3") == Resolved(units[2])
    ensures units[2].row.offset == 5 && units[2].row.source == find && OccursAt(text, find, 5)
    ensures AnchorCompiler.Compiled(text, g, 5, find, "b();", 320, 640)
            == AnchorCompiler.Ok(AnchorCompiler.Anchor(find, "b();", 5))
    ensures Splice(text, 5, 10, "b();") == "a(1);b();" && ReplaceFirst(text, find, "b();") == "b();a(1);"
  {
    ThreeStatements(text, find);
    var windows := SourceWindows.Windows(AnchorCompiler.Plainly(text), SourceWindows.DEFAULT_KEYWORDS, 2000, 2);
    OneWindowShows(text);
    RunsAreCollected(text, windows, windows[0].reason);
    RunsAreUnits(text, windows[0].reason);
    ThirdResolves(text, units, r, find);
    CompiledAsItStands(g, text, find);
  }

  lemma ThirdResolves(text: string, units: seq<Unit>, r: Rejections, find: string)
    requires |units| == 3 && FirstWithId(units, "w1u3") == 2 && r.digest(find) !in r.rejected
    requires units[2].row.source == find && find != "" && OccursAt(text, find, units[2].row.offset)
    ensures Resolve(text, units, r, "w1u3") == Resolved(units[2])
  {
  }

  lemma CompiledAsItStands(g: AnchorCompiler.Guards, text: string, find: string)
    requires g == AnchorCompiler.Guards(s => s, s => false, (a, b) => false, (s, n, a, b) => false, (a, b) => false)
    requires |find| == 10 && OccursAt(text, find, 5) && Count(text, find, 0) == 1
    ensures AnchorCompiler.Compiled(text, g, 5, find, "b();", 320, 640)
            == AnchorCompiler.Ok(AnchorCompiler.Anchor(find, "b();", 5))
  {
  }

  lemma OneWindowShows(text: string)
    requires text == "a(1);a(1);a(1);"
    ensures var windows := SourceWindows.Windows(AnchorCompiler.Plainly(text), SourceWindows.DEFAULT_KEYWORDS, 2000, 2);
            windows != [] && FirstShows(windows, text, windows[0].reason)
  {
    var whole := AnchorCompiler.Plainly(text);
    assert text[0] == 'a' && !whole.space(text[0]);
    assert !SourceWindows.Blank(whole);
  }

  lemma RunsAreUnits(text: string, reason: string)
    requires text == "a(1);a(1);a(1);"
    ensures var rows := [Run(reason, 0, text[0..10]), Run(reason, 0, text[0..15]), Run(reason, 5, text[5..15])];
            && Selected(Plan([], [], [], 2, [], [], rows, []), 4) == rows
            && |Units(rows)| == 3 && FirstWithId(Units(rows), "w1u3") == 2
            && Units(rows)[2] == Unit("w1u3", rows[2])
  {
    var rows := [Run(reason, 0, text[0..10]), Run(reason, 0, text[0..15]), Run(reason, 5, text[5..15])];
    AllAreSelected(rows);
    UnitsInOneWindow(rows);
    DifferentDigits();
    FirstIsThird(Units(rows), "w1u3");
  }

  lemma DifferentDigits()
    ensures "w1u1" != "w1u3" && "w1u2" != "w1u3"
  {
    assert "w1u1"[3] == '1' && "w1u2"[3] == '2' && "w1u3"[3] == '3';
  }

  ghost predicate FirstShows(windows: seq<SourceWindows.Window>, text: string, reason: string) {
    && windows != [] && windows[0].id == "w1" && windows[0].offset == 0
    && windows[0].source == text && windows[0].reason == reason
  }

  lemma RowInFirst(text: string, windows: seq<SourceWindows.Window>, reason: string, left: nat, right: nat, kind: Kind)
    requires FirstShows(windows, text, reason) && left < right <= |text|
    ensures RowOf(text, windows, InWindow(0, left, right, kind))
            == Row("w1", left, right, reason, kind, text[left..right])
  {
  }

  lemma CollectedStep(text: string, windows: seq<SourceWindows.Window>, candidates: seq<Candidate>, safe: Check,
                      i: nat, front: seq<Row>, row: Row)
    requires i < |candidates| && Collected(text, windows, candidates[..i], safe) == front
    requires RowOf(text, windows, candidates[i]) == row
    ensures Collected(text, windows, candidates[..i + 1], safe)
            == if KeyOf(row) in Keys(front) || !safe(row.source, row.offset, row.kind) then front else front + [row]
  {
    assert candidates[..i + 1][..i] == candidates[..i];
  }

  lemma RunIsAdded(text: string, windows: seq<SourceWindows.Window>, i: nat, front: seq<Row>, row: Row)
    requires i < |THREE_STATEMENTS| && Collected(text, windows, THREE_STATEMENTS[..i], LongEnough()) == front
    requires RowOf(text, windows, THREE_STATEMENTS[i]) == row && |row.source| >= 6
    requires forall r :: r in front ==> KeyOf(r) != KeyOf(row)
    ensures Collected(text, windows, THREE_STATEMENTS[..i + 1], LongEnough()) == front + [row]
  {
    CollectedStep(text, windows, THREE_STATEMENTS, LongEnough(), i, front, row);
  }

  lemma StatementsAreShort(text: string, windows: seq<SourceWindows.Window>, reason: string)
    requires text == "a(1);a(1);a(1);" && FirstShows(windows, text, reason)
    ensures Collected(text, windows, THREE_STATEMENTS[..3], LongEnough()) == []
  {
    var all, safe := THREE_STATEMENTS, LongEnough();
    assert all[..0] == [];
    RowInFirst(text, windows, reason, 0, 5, Statement);
    CollectedStep(text, windows, all, safe, 0, [], Row("w1", 0, 5, reason, Statement, text[0..5]));
    RowInFirst(text, windows, reason, 5, 10, Statement);
    CollectedStep(text, windows, all, safe, 1, [], Row("w1", 5, 10, reason, Statement, text[5..10]));
    RowInFirst(text, windows, reason, 10, 15, Statement);
    CollectedStep(text, windows, all, safe, 2, [], Row("w1", 10, 15, reason, Statement, text[10..15]));
  }

  lemma RunsAreCollected(text: string, windows: seq<SourceWindows.Window>, reason: string)
    requires text == "a(1);a(1);a(1);" && FirstShows(windows, text, reason)
    ensures Collected(text, windows, THREE_STATEMENTS, LongEnough())
            == [Run(reason, 0, text[0..10]), Run(reason, 0, text[0..15]), Run(reason, 5, text[5..15])]
  {
    var a, b, c := Run(reason, 0, text[0..10]), Run(reason, 0, text[0..15]), Run(reason, 5, text[5..15]);
    StatementsAreShort(text, windows, reason);
    RowInFirst(text, windows, reason, 0, 10, Sequence);
    RunIsAdded(text, windows, 3, [], a);
    RowInFirst(text, windows, reason, 0, 15, Sequence);
    RunIsAdded(text, windows, 4, [a], b);
    RowInFirst(text, windows, reason, 5, 15, Sequence);
    RunIsAdded(text, windows, 5, [a, b], c);
    assert THREE_STATEMENTS[..6] == THREE_STATEMENTS;
  }

  // Without anything else to draw on, the selection takes the ranked rows as they are.
  lemma AllAreSelected(rows: seq<Row>)
    requires |rows| == 3 && DistinctKeys(rows)
    ensures Selected(Plan([], [], [], 2, [], [], rows, []), 4) == rows
  {
    OfferedStep(rows, 0);
    OfferedStep(rows, 1);
    OfferedStep(rows, 2);
    assert rows[..3] == rows && rows[..0] == [];
    AllowedWithout(rows);
  }

  lemma OfferedStep(rows: seq<Row>, i: nat)
    requires i < |rows| <= 4 && DistinctKeys(rows) && OfferedAll([], rows[..i], 4) == rows[..i]
    ensures OfferedAll([], rows[..i + 1], 4) == rows[..i + 1]
  {
    assert rows[..i + 1][..i] == rows[..i] && rows[..i + 1] == rows[..i] + [rows[i]];
    forall row | row in rows[..i]
      ensures KeyOf(row) != KeyOf(rows[i])
    {
      var k :| 0 <= k < i && rows[k] == row;
    }
  }

  lemma {:induction false} AllowedWithout(rows: seq<Row>)
    ensures Allowed(rows, []) == rows
  {
    if rows != [] {
      AllowedWithout(rows[..|rows| - 1]);
      assert rows == rows[..|rows| - 1] + [rows[|rows| - 1]];
    }
  }

  lemma UnitsInOneWindow(rows: seq<Row>)
    requires |rows| == 3 && rows[0].window == rows[1].window == rows[2].window == "w1"
    ensures Units(rows) == [Unit("w1u1", rows[0]), Unit("w1u2", rows[1]), Unit("w1u3", rows[2])]
  {
    CountInOneWindow(rows, 1);
    CountInOneWindow(rows, 2);
    CountInOneWindow(rows, 3);
    assert Decimal(1) == "1" && Decimal(2) == "2" && Decimal(3) == "3";
    assert "w1" + "u" + "1" == "w1u1" && "w1" + "u" + "2" == "w1u2" && "w1" + "u" + "3" == "w1u3";
  }

  lemma {:induction false} CountInOneWindow(rows: seq<Row>, n: nat)
    requires n <= |rows| && forall i :: 0 <= i < |rows| ==> rows[i].window == "w1"
    ensures CountOf(rows[..n], "w1") == n
  {
    if n > 0 {
      CountInOneWindow(rows, n - 1);
      assert rows[..n][..n - 1] == rows[..n - 1];
    }
  }

  lemma FirstIsThird(units: seq<Unit>, id: string)
    requires |units| == 3 && units[0].id != id && units[1].id != id && units[2].id == id
    ensures FirstWithId(units, id) == 2
  {
    assert units[1..][0] == units[1] && units[1..][1..] == units[2..] && units[2..][0] == units[2];
    assert FirstWithId(units[2..], id) == 0;
    assert FirstWithId(units[1..], id) == 1;
  }

  lemma ThreeStatements(text: string, find: string)
    requires text == "a(1);a(1);a(1);" && find == "a(1);a(1);"
    ensures OccursAt(text, find, 5) && text[5..15] == find
    ensures Find(text, find, 0) == 0 && Count(text, find, 0) == 1
    ensures Splice(text, 5, 10, "b();") == "a(1);b();" && ReplaceFirst(text, find, "b();") == "b();a(1);"
  {
    assert text[0..10] == find && text[5..15] == find;
    assert Find(text, find, 10) == -1;
    assert Count(text, find, 10) == 0;
    assert text[..5] == "a(1);" && text[15..] == "" && text[10..] == "a(1);" && text[..0] == "";
  }
}
