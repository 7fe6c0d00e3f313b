/**
 What the stages of the unit selection leave, told by places in the ranked lists: each stage takes
 the first rows that are free, up to its room, and avoiding a function costs nothing that can
 be kept or made up for.
 */
module UnitStages {
  import opened Basics
  import opened EditUnits
  import opened Greedy
  import SourceWindows

  // The rows at these places, in order, behind the selection.
  ghost predicate Appends(selected: seq<Row>, rows: seq<Row>, taken: seq<nat>, out: seq<Row>)
    requires Increasing(taken, |rows|)
  {
    && |out| == |selected| + |taken| && selected <= out
    && forall k :: 0 <= k < |taken| ==> out[|selected| + k] == rows[taken[k]]
  }

  /******* Offering *******/

  // Rows whose span is taken are kept out.
  ghost function BySpan(selected: seq<Row>): Rule<Row> {
    Rule((row: Row) => KeyOf(row) in Keys(selected), (a: Row, b: Row) => KeyOf(a) == KeyOf(b))
  }

  function Room(selected: seq<Row>, max: nat): nat {
    if |selected| >= max then 0 else max - |selected|
  }

  // The stage takes exactly the first rows that are free, up to its room.
  ghost predicate Fills(selected: seq<Row>, rows: seq<Row>, rule: Rule<Row>, room: nat, out: seq<Row>) {
    exists taken :: FirstFree(rows, rule, room, taken) && Appends(selected, rows, taken, out)
  }

  lemma InKeys(rows: seq<Row>, key: Key) returns (i: nat)
    requires key in Keys(rows)
    ensures i < |rows| && KeyOf(rows[i]) == key
  {
    i :| 0 <= i < |rows| && KeyOf(rows[i]) == key;
  }

  // What is kept out is what the selection so far holds the span of.
  lemma KeptOutByKeys(selected: seq<Row>, rows: seq<Row>, taken: seq<nat>, out: seq<Row>, j: nat)
    requires j < |rows| && Increasing(taken, |rows|) && Increasing(taken, j) && Appends(selected, rows, taken, out)
    ensures KeptOut(rows, BySpan(selected), taken, j) <==> KeyOf(rows[j]) in Keys(out)
  {
    var rule := BySpan(selected);
    if KeyOf(rows[j]) in Keys(out) {
      var i := InKeys(out, KeyOf(rows[j]));
      if i < |selected| {
        assert out[i] == selected[i];
      } else {
        assert out[|selected| + (i - |selected|)] == rows[taken[i - |selected|]];
        assert rule.clash(rows[j], rows[taken[i - |selected|]]);
      }
    }
    if rule.barred(rows[j]) {
      var i := InKeys(selected, KeyOf(rows[j]));
      assert out[i] == selected[i];
    } else if Clashes(rows, rule, taken, j) {
      var k :| 0 <= k < |taken| && taken[k] < j && rule.clash(rows[j], rows[taken[k]]);
      assert out[|selected| + k] == rows[taken[k]];
    }
  }

  lemma AppendsOneMore(selected: seq<Row>, rows: seq<Row>, taken: seq<nat>, out: seq<Row>, n: nat)
    requires n + 1 == |rows| && Increasing(taken, n) && Appends(selected, rows[..n], taken, out)
    ensures Increasing(taken, |rows|) && Appends(selected, rows, taken, out)
    ensures Increasing(taken + [n], |rows|) && Appends(selected, rows, taken + [n], out + [rows[n]])
  {
  }

  lemma {:induction false} OfferingFills(selected: seq<Row>, rows: seq<Row>, max: nat) returns (taken: seq<nat>)
    ensures FirstFree(rows, BySpan(selected), Room(selected, max), taken)
    ensures Appends(selected, rows, taken, OfferedAll(selected, rows, max))
  {
    taken := [];
    if rows != [] {
      var n := |rows| - 1;
      var rule, room, out := BySpan(selected), Room(selected, max), OfferedAll(selected, rows[..n], max);
      taken := OfferingFills(selected, rows[..n], max);
      AppendsOneMore(selected, rows, taken, out, n);
      KeptOutByKeys(selected, rows, taken, out, n);
      if |out| >= max || KeyOf(rows[n]) in Keys(out) {
        OneMoreLeft(rows, rule, room, taken, n);
      } else {
        OneMoreTaken(rows, rule, room, taken, n);
        taken := taken + [n];
      }
    }
  }

  // The first row whose span is free, if there is room for one.
  lemma {:induction false} FirstIsFirst(selected: seq<Row>, rows: seq<Row>, max: nat) returns (j: nat)
    ensures j <= |rows|
    ensures forall i :: 0 <= i < j ==> |selected| >= max || KeyOf(rows[i]) in Keys(selected)
    ensures if j == |rows| then FirstOffered(selected, rows, max) == selected
            else |selected| < max && KeyOf(rows[j]) !in Keys(selected)
                 && FirstOffered(selected, rows, max) == selected + [rows[j]]
    decreases |rows|
  {
    j := 0;
    if |selected| >= max {
      j := |rows|;
    } else if rows != [] && KeyOf(rows[0]) in Keys(selected) {
      var i := FirstIsFirst(selected, rows[1..], max);
      j := i + 1;
      assert forall k :: 1 <= k < j ==> rows[k] == rows[1..][k - 1];
    }
  }

  lemma FirstFills(selected: seq<Row>, rows: seq<Row>, max: nat) returns (taken: seq<nat>)
    ensures FirstFree(rows, BySpan(selected), Min(1, Room(selected, max)), taken)
    ensures Appends(selected, rows, taken, FirstOffered(selected, rows, max))
  {
    var j := FirstIsFirst(selected, rows, max);
    taken := if j == |rows| then [] else [j];
  }

  /******* Pieces of helpers *******/

  // Rows whose span is taken are kept out, and so is a piece that crosses another one.
  ghost function ByPiece(selected: seq<Row>): Rule<Row> {
    Rule((row: Row) => KeyOf(row) in Keys(selected),
         (a: Row, b: Row) => KeyOf(a) == KeyOf(b) || (a.offset < b.end && a.end > b.offset))
  }

  lemma KeptOutAsPiece(base: seq<Row>, rows: seq<Row>, taken: seq<nat>, i: nat)
    requires i < |rows| && Increasing(taken, i) && Increasing(taken, |rows|)
    ensures KeptOut(rows, ByPiece(base), taken, i)
            <==> KeyOf(rows[i]) in Keys(base + ItemsAt(rows, taken)) || Crosses(rows[i], ItemsAt(rows, taken))
  {
    var rule, reserved := ByPiece(base), ItemsAt(rows, taken);
    var all := base + reserved;
    if KeyOf(rows[i]) in Keys(all) {
      var k := InKeys(all, KeyOf(rows[i]));
      if k < |base| {
        assert base[k] in base;
      } else {
        assert rule.clash(rows[i], rows[taken[k - |base|]]);
      }
    }
    if Crosses(rows[i], reserved) {
      var k :| 0 <= k < |reserved| && rows[i].offset < reserved[k].end && rows[i].end > reserved[k].offset;
      assert rule.clash(rows[i], rows[taken[k]]);
    }
    if rule.barred(rows[i]) {
      KeysGrow(base, reserved);
    } else if Clashes(rows, rule, taken, i) {
      var k :| 0 <= k < |taken| && taken[k] < i && rule.clash(rows[i], rows[taken[k]]);
      assert reserved[k] == rows[taken[k]] && all[|base| + k] == reserved[k];
    }
  }

  // What the pieces from row i on add, the ones at these places being reserved.
  ghost function PiecesFrom(base: seq<Row>, rows: seq<Row>, max: nat, i: nat, taken: seq<nat>): (seq<Row>, seq<Row>)
    requires i <= |rows| && Increasing(taken, |rows|)
  {
    ReservedFrom(base + ItemsAt(rows, taken), ItemsAt(rows, taken), rows[i..], max)
  }

  lemma NextPiece(base: seq<Row>, rows: seq<Row>, max: nat, i: nat, taken: seq<nat>)
    requires i < |rows| && Increasing(taken, i) && Increasing(taken, |rows|) && Increasing(taken + [i], |rows|)
    requires |taken| < Min(2, Room(base, max))
    ensures PiecesFrom(base, rows, max, i, taken)
            == PiecesFrom(base, rows, max, i + 1,
                          if KeptOut(rows, ByPiece(base), taken, i) then taken else taken + [i])
  {
    var reserved := ItemsAt(rows, taken);
    KeptOutAsPiece(base, rows, taken, i);
    assert rows[i..][1..] == rows[i + 1..];
    assert ItemsAt(rows, taken + [i]) == reserved + [rows[i]];
    assert base + reserved + [rows[i]] == base + (reserved + [rows[i]]);
  }

  lemma {:induction false} PiecesTake(base: seq<Row>, rows: seq<Row>, max: nat, i: nat, taken: seq<nat>)
    returns (all: seq<nat>)
    requires i <= |rows| && FirstFree(rows[..i], ByPiece(base), Min(2, Room(base, max)), taken)
    requires Increasing(taken, |rows|)
    ensures FirstFree(rows, ByPiece(base), Min(2, Room(base, max)), all)
    ensures PiecesFrom(base, rows, max, i, taken) == (base + ItemsAt(rows, all), ItemsAt(rows, all))
    decreases |rows| - i
  {
    var rule, room := ByPiece(base), Min(2, Room(base, max));
    all := taken;
    if |taken| == room {
      NoRoomLeft(rows, rule, room, taken, i);
    } else if i == |rows| {
      assert rows[..i] == rows;
    } else {
      assert rows[..i + 1][..i] == rows[..i];
      NextPiece(base, rows, max, i, taken);
      KeptOutInFront(rows, rule, taken, i + 1, i);
      if KeptOut(rows, rule, taken, i) {
        OneMoreLeft(rows[..i + 1], rule, room, taken, i);
        all := PiecesTake(base, rows, max, i + 1, taken);
      } else {
        OneMoreTaken(rows[..i + 1], rule, room, taken, i);
        all := PiecesTake(base, rows, max, i + 1, taken + [i]);
      }
    }
  }

  // The first pieces, two at most, of the first helper that has one whose span is free.
  ghost predicate TakesPieces(selected: seq<Row>, helpers: seq<seq<Row>>, max: nat, h: nat, out: seq<Row>) {
    && h <= |helpers| && (forall g :: 0 <= g < h ==> |selected| >= max || AllTaken(helpers[g], selected))
    && if h == |helpers| then out == selected
       else |selected| < max && out != selected
            && Fills(selected, helpers[h], ByPiece(selected), Min(2, Room(selected, max)), out)
  }

  lemma FirstPieces(base: seq<Row>, rows: seq<Row>, max: nat) returns (all: seq<nat>)
    ensures FirstFree(rows, ByPiece(base), Min(2, Room(base, max)), all)
    ensures ReservedFrom(base, [], rows, max) == (base + ItemsAt(rows, all), ItemsAt(rows, all))
  {
    assert rows[..0] == [] && rows[0..] == rows && base + [] == base && ItemsAt(rows, []) == [];
    all := PiecesTake(base, rows, max, 0, []);
  }

  lemma NoPieceIsFree(base: seq<Row>, rows: seq<Row>, max: nat)
    requires |base| < max && FirstFree(rows, ByPiece(base), Min(2, Room(base, max)), [])
    ensures AllTaken(rows, base)
  {
    forall row | row in rows
      ensures KeyOf(row) in Keys(base)
    {
      var j :| 0 <= j < |rows| && rows[j] == row;
      assert KeptOut(rows, ByPiece(base), [], j);
    }
  }

  lemma {:induction false} PiecesFill(selected: seq<Row>, helpers: seq<seq<Row>>, max: nat) returns (h: nat)
    ensures TakesPieces(selected, helpers, max, h, Reserved(selected, helpers, max))
    decreases |helpers|
  {
    h := 0;
    if |selected| >= max {
      h := |helpers|;
    } else if helpers != [] {
      var all := FirstPieces(selected, helpers[0], max);
      assert selected + [] == selected;
      if all == [] {
        NoPieceIsFree(selected, helpers[0], max);
        var g := PiecesFill(selected, helpers[1..], max);
        h := g + 1;
        assert forall k :: 1 <= k < h ==> helpers[k] == helpers[1..][k - 1];
      } else {
        assert Appends(selected, helpers[0], all, selected + ItemsAt(helpers[0], all));
      }
    }
  }

  /******* The whole selection *******/

  // Exactly the places of rows outside the avoided functions.
  ghost predicate PicksAllowed(rows: seq<Row>, avoided: seq<Span>, places: seq<nat>) {
    Increasing(places, |rows|) && forall i: nat :: i < |rows| ==> (i in places <==> Avoids(rows[i], avoided))
  }

  lemma {:induction false} AllowedPicks(rows: seq<Row>, avoided: seq<Span>) returns (places: seq<nat>)
    ensures PicksAllowed(rows, avoided, places) && Allowed(rows, avoided) == ItemsAt(rows, places)
  {
    places := [];
    if rows != [] {
      var n := |rows| - 1;
      places := AllowedPicks(rows[..n], avoided);
      places := AllowedOneMore(rows, avoided, places, n);
    }
  }

  lemma AllowedOneMore(rows: seq<Row>, avoided: seq<Span>, places: seq<nat>, n: nat) returns (more: seq<nat>)
    requires n + 1 == |rows| && PicksAllowed(rows[..n], avoided, places)
    requires Allowed(rows[..n], avoided) == ItemsAt(rows[..n], places)
    ensures PicksAllowed(rows, avoided, more) && Allowed(rows, avoided) == ItemsAt(rows, more)
  {
    PicksOneMore(rows, avoided, places, n);
    ItemsAtOneMore(rows, places, n);
    more := if Avoids(rows[n], avoided) then places + [n] else places;
  }

  lemma PicksOneMore(rows: seq<Row>, avoided: seq<Span>, places: seq<nat>, n: nat)
    requires n + 1 == |rows| && PicksAllowed(rows[..n], avoided, places)
    ensures PicksAllowed(rows, avoided, if Avoids(rows[n], avoided) then places + [n] else places)
  {
    forall i: nat | i < n
      ensures i in places <==> Avoids(rows[i], avoided)
    {
      assert rows[..n][i] == rows[i];
    }
    assert n !in places;
  }

  // What each stage leaves.
  datatype Stages = Stages(selectors: seq<Row>, pieces: seq<Row>, roots: seq<Row>, hop: seq<Row>, callees: seq<Row>,
                           ranked: seq<Row>)

  ghost predicate FillsBySpan(selected: seq<Row>, rows: seq<Row>, room: nat, out: seq<Row>) {
    Fills(selected, rows, BySpan(selected), room, out)
  }

  // Three selectors at most, two pieces of a helper, the functions to start from, one callee of the
  // second hop, then callees and whatever else is ranked, as long as there is room.
  ghost predicate Staged(plan: Plan, max: nat, h: nat, s: Stages) {
    && FillsBySpan([], Take(plan.selectors, Min(3, max)), max, s.selectors)
    && TakesPieces(s.selectors, plan.helpers, max, h, s.pieces)
    && FillsBySpan(s.pieces, Take(plan.functions, Min(plan.roots, max)), Room(s.pieces, max), s.roots)
    && FillsBySpan(s.roots, plan.secondHop, Min(1, Room(s.roots, max)), s.hop)
    && FillsBySpan(s.hop, plan.neighbors, Room(s.hop, max), s.callees)
    && FillsBySpan(s.callees, plan.ranked, Room(s.callees, max), s.ranked)
  }

  // Rows outside the avoided functions stay, in order; with a function to avoid the room they
  // leave goes to callees and functions outside it.
  ghost predicate KeptAndRefilled(plan: Plan, max: nat, ranked: seq<Row>, kept: seq<nat>, spare: seq<nat>,
                                  out: seq<Row>)
  {
    var others := plan.neighbors + plan.functions;
    && PicksAllowed(ranked, plan.avoided, kept) && PicksAllowed(others, plan.avoided, spare)
    && var base := ItemsAt(ranked, kept);
       if plan.avoided == [] then out == base
       else FillsBySpan(base, ItemsAt(others, spare), Room(base, max), out)
  }

  lemma OfferingFillsRoom(selected: seq<Row>, rows: seq<Row>, max: nat)
    ensures FillsBySpan(selected, rows, Room(selected, max), OfferedAll(selected, rows, max))
  {
    var taken := OfferingFills(selected, rows, max);
  }

  lemma FirstFillsRoom(selected: seq<Row>, rows: seq<Row>, max: nat)
    ensures FillsBySpan(selected, rows, Min(1, Room(selected, max)), FirstOffered(selected, rows, max))
  {
    var taken := FirstFills(selected, rows, max);
  }

  lemma StagesAre(plan: Plan, max: nat) returns (h: nat, s: Stages)
    ensures Staged(plan, max, h, s)
    ensures s.roots == Roots(plan, max) && s.callees == WithCallees(plan, max) && s.ranked == BeforeAvoiding(plan, max)
  {
    var selectors := OfferedAll([], Take(plan.selectors, Min(3, max)), max);
    OfferingFillsRoom([], Take(plan.selectors, Min(3, max)), max);
    h := PiecesFill(selectors, plan.helpers, max);
    var pieces := Reserved(selectors, plan.helpers, max);
    OfferingFillsRoom(pieces, Take(plan.functions, Min(plan.roots, max)), max);
    var roots := Roots(plan, max);
    FirstFillsRoom(roots, plan.secondHop, max);
    var hop := FirstOffered(roots, plan.secondHop, max);
    OfferingFillsRoom(hop, plan.neighbors, max);
    OfferingFillsRoom(WithCallees(plan, max), plan.ranked, max);
    s := Stages(selectors, pieces, roots, hop, WithCallees(plan, max), BeforeAvoiding(plan, max));
  }

  // Main result: the selection, told by places in the lists of the plan.
  lemma SelectionIsStaged(plan: Plan, max: nat) returns (h: nat, s: Stages, kept: seq<nat>, spare: seq<nat>)
    ensures Staged(plan, max, h, s) && KeptAndRefilled(plan, max, s.ranked, kept, spare, Selected(plan, max))
  {
    h, s := StagesAre(plan, max);
    kept := AllowedPicks(s.ranked, plan.avoided);
    spare := AllowedPicks(plan.neighbors + plan.functions, plan.avoided);
    OfferingFillsRoom(ItemsAt(s.ranked, kept), ItemsAt(plan.neighbors + plan.functions, spare), max);
  }

  // So no row is missed while there is room: without a function to avoid every row of the lists has
  // its span selected, with one every callee and function outside it.
  lemma SelectionIsFull(plan: Plan, max: nat, row: Row)
    requires |Selected(plan, max)| < max
    requires if plan.avoided == []
             then row in Take(plan.selectors, Min(3, max)) + Take(plan.functions, Min(plan.roots, max))
                         + plan.neighbors + plan.ranked
             else row in plan.neighbors + plan.functions && Avoids(row, plan.avoided)
    ensures KeyOf(row) in Keys(Selected(plan, max))
  {
    var before, others := BeforeAvoiding(plan, max), plan.neighbors + plan.functions;
    if plan.avoided == [] {
      NothingToAvoid(before);
      StagesMissNothing(plan, max, row);
    } else {
      AllowedIsASublist(others, plan.avoided);
      OfferingAddsOnly(Allowed(before, plan.avoided), Allowed(others, plan.avoided), max);
      assert KeyOf(row) in Keys(Allowed(others, plan.avoided));
    }
  }

  lemma {:induction false} NothingToAvoid(rows: seq<Row>)
    ensures Allowed(rows, []) == rows
  {
    if rows != [] { NothingToAvoid(rows[..|rows| - 1]); }
  }

  lemma StagesMissNothing(plan: Plan, max: nat, row: Row)
    requires |BeforeAvoiding(plan, max)| < max
    requires row in Take(plan.selectors, Min(3, max)) + Take(plan.functions, Min(plan.roots, max))
                    + plan.neighbors + plan.ranked
    ensures KeyOf(row) in Keys(BeforeAvoiding(plan, max))
  {
    var first, functions := Take(plan.selectors, Min(3, max)), Take(plan.functions, Min(plan.roots, max));
    var selectors := OfferedAll([], first, max);
    var pieces, roots := Reserved(selectors, plan.helpers, max), Roots(plan, max);
    var hop, callees := FirstOffered(roots, plan.secondHop, max), WithCallees(plan, max);
    OfferingAddsOnly([], first, max);
    ReservedHolds(selectors, plan.helpers, max);
    OfferingAddsOnly(pieces, functions, max);
    FirstAddsOnly(roots, plan.secondHop, max);
    OfferingAddsOnly(hop, plan.neighbors, max);
    OfferingAddsOnly(callees, plan.ranked, max);
    PrefixKeys(selectors, BeforeAvoiding(plan, max));
    PrefixKeys(roots, BeforeAvoiding(plan, max));
    PrefixKeys(callees, BeforeAvoiding(plan, max));
    assert row in first || row in functions || row in plan.neighbors || row in plan.ranked;
  }

  /******* What is collected *******/

  // The rows the candidates stand for.
  function RowsOf(text: string, windows: seq<SourceWindows.Window>, candidates: seq<Candidate>): (rows: seq<Row>)
    ensures |rows| == |candidates|
    ensures forall i :: 0 <= i < |rows| ==> rows[i] == RowOf(text, windows, candidates[i])
  {
    seq(|candidates|, i requires 0 <= i < |candidates| => RowOf(text, windows, candidates[i]))
  }

  // Rows that do not pass the check are kept out, and so is a span a second time.
  ghost function ByCheck(safe: Check): Rule<Row> {
    Rule((row: Row) => !safe(row.source, row.offset, row.kind), (a: Row, b: Row) => KeyOf(a) == KeyOf(b))
  }

  lemma KeptOutAmong(rows: seq<Row>, rule: Rule<Row>, taken: seq<nat>, n: nat)
    requires n < |rows| && Increasing(taken, n) && Increasing(taken, |rows|)
    requires forall a, b :: rule.clash(a, b) <==> KeyOf(a) == KeyOf(b)
    ensures KeptOut(rows, rule, taken, n)
            <==> rule.barred(rows[n]) || KeyOf(rows[n]) in Keys(ItemsAt(rows, taken))
  {
    var those := ItemsAt(rows, taken);
    if KeyOf(rows[n]) in Keys(those) {
      var k := InKeys(those, KeyOf(rows[n]));
      assert rule.clash(rows[n], rows[taken[k]]);
    }
    if Clashes(rows, rule, taken, n) {
      var k :| 0 <= k < |taken| && taken[k] < n && rule.clash(rows[n], rows[taken[k]]);
      assert KeyOf(those[k]) == KeyOf(rows[n]);
    }
  }

  // Every candidate that passes the check is collected, in order, unless its span is already.
  lemma {:induction false} CollectedIsFirstFree(text: string, windows: seq<SourceWindows.Window>,
                                                candidates: seq<Candidate>, safe: Check)
    returns (taken: seq<nat>)
    ensures FirstFree(RowsOf(text, windows, candidates), ByCheck(safe), |candidates| + 1, taken)
    ensures Collected(text, windows, candidates, safe) == ItemsAt(RowsOf(text, windows, candidates), taken)
    ensures |taken| <= |candidates|
  {
    taken := [];
    if candidates != [] {
      var n, rows, rule := |candidates| - 1, RowsOf(text, windows, candidates), ByCheck(safe);
      taken := CollectedIsFirstFree(text, windows, candidates[..n], safe);
      assert RowsOf(text, windows, candidates[..n]) == rows[..n];
      RoomForMore(rows[..n], rule, n + 1, taken);
      ItemsAtOneMore(rows, taken, n);
      KeptOutAmong(rows, rule, taken, n);
      if KeptOut(rows, rule, taken, n) {
        OneMoreLeft(rows, rule, n + 2, taken, n);
      } else {
        OneMoreTaken(rows, rule, n + 2, taken, n);
        taken := taken + [n];
      }
    }
  }
}
