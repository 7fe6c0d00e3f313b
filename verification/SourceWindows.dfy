/**
 The windows a prompt shows of a long source: exact slices around the first keyword hits of a
 failure family, clipped to a budget.
 */
module SourceWindows {
  import opened Basics
  import opened Greedy
  import opened PythonText

  const REACH_BEFORE := 380
  const REACH_AFTER := 620
  const MAX_POSITIONS := 12
  const FALLBACK := 2000

  // A keyword names a function to keep out, a function whose middle is given, or plain text.
  datatype Keyword = Avoided(word: string) | Named(word: string, middles: seq<nat>) | Plain(word: string)

  datatype Interval = Interval(start: nat, end: nat, reason: string, focus: nat)

  datatype Window = Window(id: string, offset: nat, end: nat, reason: string, focus: nat, source: string)

  // A source with its case-folded form, and the characters that count as blank.
  datatype Source = Source(text: string, lowered: string, space: char -> bool)

  predicate Blank(source: Source) {
    forall i :: 0 <= i < |source.text| ==> source.space(source.text[i])
  }

  /******* Keyword hits *******/

  // How far the scan moves behind a hit.
  function Step(word: string): nat {
    if word == "" then 1 else |word|
  }

  // The hits from the cursor on, added to those found, until there are enough; none inside another.
  function Hits(lowered: string, word: string, cursor: nat, found: seq<nat>): seq<nat>
    decreases MAX_POSITIONS - |found|
  {
    if |found| >= MAX_POSITIONS || cursor > |lowered| then found
    else
      var p := Find(lowered, word, cursor);
      if p < 0 then found else Hits(lowered, word, p + Step(word), found + [p])
  }

  function Positions(source: Source, keyword: Keyword): seq<nat> {
    match keyword
    case Avoided(_) => []
    case Named(_, middles) => if |middles| > MAX_POSITIONS then middles[..MAX_POSITIONS] else middles
    case Plain(word) => Hits(source.lowered, word, 0, [])
  }

  ghost predicate InsideSome(positions: seq<nat>, width: nat, q: int) {
    exists i :: 0 <= i < |positions| && positions[i] <= q < positions[i] + width
  }

  // Some hits of the word, in order and apart, all of them in front of the cursor, that leave
  // no occurrence in front of it out.
  ghost predicate HitsUpTo(lowered: string, word: string, cursor: nat, positions: seq<nat>) {
    && |positions| <= MAX_POSITIONS
    && (forall i, j :: 0 <= i < j < |positions| ==> positions[i] + Step(word) <= positions[j])
    && (forall i ::
          0 <= i < |positions| ==> OccursAt(lowered, word, positions[i]) && positions[i] + Step(word) <= cursor)
    && (forall q :: OccursAt(lowered, word, q) && q < cursor ==> InsideSome(positions, Step(word), q))
  }

  // The first hits of a word: occurrences in order and apart, and every other occurrence starts
  // inside one of them, or behind the twelfth.
  ghost predicate FirstHits(lowered: string, word: string, positions: seq<nat>) {
    && |positions| <= MAX_POSITIONS
    && (forall i, j :: 0 <= i < j < |positions| ==> positions[i] + Step(word) <= positions[j])
    && (forall i :: 0 <= i < |positions| ==> OccursAt(lowered, word, positions[i]))
    && (forall q :: OccursAt(lowered, word, q) ==>
          InsideSome(positions, Step(word), q) || (|positions| == MAX_POSITIONS && q > positions[MAX_POSITIONS - 1]))
  }

  lemma OneMoreHit(lowered: string, word: string, cursor: nat, positions: seq<nat>)
    requires HitsUpTo(lowered, word, cursor, positions) && |positions| < MAX_POSITIONS
    requires Find(lowered, word, cursor) >= 0
    ensures var p := Find(lowered, word, cursor);
            HitsUpTo(lowered, word, p + Step(word), positions + [p])
  {
    var p := Find(lowered, word, cursor);
    FindIsLeftmost(lowered, word, cursor);
    forall q | OccursAt(lowered, word, q) && q < p + Step(word)
      ensures InsideSome(positions + [p], Step(word), q)
    {
      assert q >= cursor ==> p <= q;
      InsideOneMore(positions, p, Step(word), q);
    }
  }

  lemma InsideOneMore(positions: seq<nat>, p: nat, width: nat, q: int)
    requires InsideSome(positions, width, q) || p <= q < p + width
    ensures InsideSome(positions + [p], width, q)
  {
    var more := positions + [p];
    if i :| 0 <= i < |positions| && positions[i] <= q < positions[i] + width {
      assert more[i] == positions[i];
    } else {
      assert more[|positions|] == p;
    }
  }

  // Where the scan ends.
  predicate Ends(lowered: string, word: string, cursor: nat, positions: seq<nat>) {
    |positions| >= MAX_POSITIONS || cursor > |lowered| || Find(lowered, word, cursor) < 0
  }

  lemma NoMoreHits(lowered: string, word: string, cursor: nat, positions: seq<nat>)
    requires HitsUpTo(lowered, word, cursor, positions) && Ends(lowered, word, cursor, positions)
    ensures FirstHits(lowered, word, positions)
  {
    FindIsLeftmost(lowered, word, cursor);
  }

  // Whatever each step of the scan keeps holds at its end.
  lemma {:induction false} ScanKeeps(lowered: string, word: string, cursor: nat, found: seq<nat>,
                                     keeps: (nat, seq<nat>) -> bool)
    returns (last: nat)
    requires keeps(cursor, found)
    requires forall c: nat, f: seq<nat> :: keeps(c, f) && !Ends(lowered, word, c, f)
               ==> keeps(Find(lowered, word, c) + Step(word), f + [Find(lowered, word, c)])
    ensures keeps(last, Hits(lowered, word, cursor, found))
            && Ends(lowered, word, last, Hits(lowered, word, cursor, found))
    decreases MAX_POSITIONS - |found|
  {
    if Ends(lowered, word, cursor, found) {
      last := cursor;
    } else {
      var p := Find(lowered, word, cursor);
      last := ScanKeeps(lowered, word, p + Step(word), found + [p], keeps);
    }
  }

  lemma HitsAreFirst(lowered: string, word: string)
    ensures FirstHits(lowered, word, Hits(lowered, word, 0, []))
  {
    var keeps := (c: nat, f: seq<nat>) => HitsUpTo(lowered, word, c, f);
    forall c: nat, f: seq<nat> | keeps(c, f) && !Ends(lowered, word, c, f)
      ensures keeps(Find(lowered, word, c) + Step(word), f + [Find(lowered, word, c)])
    {
      OneMoreHit(lowered, word, c, f);
    }
    var last := ScanKeeps(lowered, word, 0, [], keeps);
    NoMoreHits(lowered, word, last, Hits(lowered, word, 0, []));
  }

  method KeywordPositions(lowered: string, word: string) returns (positions: seq<nat>)
    ensures positions == Hits(lowered, word, 0, [])
    ensures FirstHits(lowered, word, positions)
  {
    positions := [];
    var cursor: nat := 0;
    while |positions| < MAX_POSITIONS && cursor <= |lowered|
      invariant Hits(lowered, word, 0, []) == Hits(lowered, word, cursor, positions)
      decreases MAX_POSITIONS - |positions|
    {
      var position := Find(lowered, word, cursor);
      if position < 0 {
        break;
      }
      positions := positions + [position];
      cursor := position + Step(word);
    }
    HitsAreFirst(lowered, word);
  }

  // Skip what precedes the first code, unless nothing follows it.
  function MinimumOffset(source: Source): nat {
    Min(1000, |source.text| / 8)
  }

  function FirstFrom(positions: seq<nat>, minimum: nat): nat
    requires positions != []
  {
    if positions[0] >= minimum || |positions| == 1 then positions[0] else FirstFrom(positions[1..], minimum)
  }

  // The position a keyword stands for, if it hits at all.
  function Chosen(source: Source, keyword: Keyword): int {
    var positions := Positions(source, keyword);
    if positions == [] then -1 else FirstFrom(positions, MinimumOffset(source))
  }

  // It is the first one behind what is skipped, or the last one.
  lemma {:induction false} FirstFromIsFirst(positions: seq<nat>, minimum: nat) returns (k: nat)
    requires positions != []
    ensures k < |positions| && FirstFrom(positions, minimum) == positions[k]
    ensures forall i :: 0 <= i < k ==> positions[i] < minimum
    ensures positions[k] >= minimum || k == |positions| - 1
  {
    k := 0;
    if positions[0] < minimum && |positions| > 1 {
      var j := FirstFromIsFirst(positions[1..], minimum);
      k := j + 1;
      assert forall i :: 1 <= i < k ==> positions[i] == positions[1..][i - 1];
    }
  }

  /******* One window for a short source *******/

  function FocusPosition(source: Source, keywords: seq<Keyword>): (nat, string) {
    if keywords == [] then (Min(|source.text| / 2, if |source.text| == 0 then 0 else |source.text| - 1), "full_source")
    else if Chosen(source, keywords[0]) >= 0 then (Chosen(source, keywords[0]), keywords[0].word)
    else FocusPosition(source, keywords[1..])
  }

  /******* Intervals around the hits of a long source *******/

  predicate Overlap(a: Interval, b: Interval) {
    a.start < b.end && a.end > b.start
  }

  predicate OverlapsAny(interval: Interval, taken: seq<Interval>) {
    exists k :: 0 <= k < |taken| && Overlap(interval, taken[k])
  }

  function Around(source: Source, keyword: Keyword, position: nat): Interval {
    Interval(if position < REACH_BEFORE then 0 else position - REACH_BEFORE,
             Min(|source.text|, position + |keyword.word| + REACH_AFTER), keyword.word, position)
  }

  function Intervals(source: Source, keywords: seq<Keyword>, maxWindows: nat, taken: seq<Interval>): seq<Interval> {
    if keywords == [] then taken
    else
      var position := Chosen(source, keywords[0]);
      if position < 0 then Intervals(source, keywords[1..], maxWindows, taken)
      else
        var interval := Around(source, keywords[0], position);
        if OverlapsAny(interval, taken) then Intervals(source, keywords[1..], maxWindows, taken)
        else if |taken| + 1 >= maxWindows then taken + [interval]
        else Intervals(source, keywords[1..], maxWindows, taken + [interval])
  }

  // Without any hit: a piece of the head and one of the tail.
  function Fallback(source: Source, maxChars: nat): seq<Interval> {
    var n := |source.text|;
    var head := Min(FALLBACK, maxChars / 2);
    var tail := Min(FALLBACK, maxChars - head);
    [Interval(0, head, "fallback_head", Min(head / 2, if head == 0 then 0 else head - 1)),
     Interval(if n < tail then 0 else n - tail, n, "fallback_tail",
              if n < (if tail / 2 < 1 then 1 else tail / 2) then 0 else n - if tail / 2 < 1 then 1 else tail / 2)]
  }

  function Slice(text: string, start: nat, end: nat): string {
    if start < end && start < |text| then text[start..Min(end, |text|)] else ""
  }

  function WindowOf(text: string, interval: Interval, end: nat, count: nat): Window {
    var source := Slice(text, interval.start, end);
    Window("w" + Decimal(count + 1), interval.start, end, interval.reason,
           if interval.focus < interval.start || source == "" then 0
           else Min(|source| - 1, interval.focus - interval.start), source)
  }

  // The part of an interval that fits the budget.
  function Piece(text: string, interval: Interval, budget: nat): (piece: string)
    ensures |piece| <= budget
  {
    Slice(text, interval.start, Min(interval.end, interval.start + budget))
  }

  function Added(text: string, interval: Interval, budget: nat, windows: seq<Window>): seq<Window> {
    if Piece(text, interval, budget) == "" then windows
    else windows + [WindowOf(text, interval, Min(interval.end, interval.start + budget), |windows|)]
  }

  // Windows in order until the budget is spent; empty slices leave none.
  function Clipped(text: string, intervals: seq<Interval>, budget: nat, windows: seq<Window>): seq<Window>
    decreases |intervals|
  {
    if intervals == [] || budget == 0 then windows
    else
      Clipped(text, intervals[1..], budget - |Piece(text, intervals[0], budget)|,
              Added(text, intervals[0], budget, windows))
  }

  function LongWindows(source: Source, keywords: seq<Keyword>, maxChars: nat, maxWindows: nat): seq<Window> {
    var intervals := Intervals(source, keywords, maxWindows, []);
    Clipped(source.text, if intervals == [] then Fallback(source, maxChars) else intervals, maxChars, [])
  }

  function Windows(source: Source, keywords: seq<Keyword>, maxChars: nat, maxWindows: nat): seq<Window> {
    if Blank(source) then []
    else if |source.text| <= maxChars then
      var (focus, reason) := FocusPosition(source, keywords);
      [Window("w1", 0, |source.text|, reason, focus, source.text)]
    else LongWindows(source, keywords, maxChars, maxWindows)
  }

  method GatherIntervals(source: Source, keywords: seq<Keyword>, maxWindows: nat) returns (intervals: seq<Interval>)
    ensures intervals == Intervals(source, keywords, maxWindows, [])
  {
    intervals := [];
    for i := 0 to |keywords|
      invariant Intervals(source, keywords, maxWindows, []) == Intervals(source, keywords[i..], maxWindows, intervals)
    {
      var position := Chosen(source, keywords[i]);
      if position < 0 {
        continue;
      }
      var interval := Around(source, keywords[i], position);
      if OverlapsAny(interval, intervals) {
        continue;
      }
      intervals := intervals + [interval];
      if |intervals| >= maxWindows {
        return;
      }
    }
  }

  method AddWindow(text: string, interval: Interval, budget: nat, windows: seq<Window>)
    returns (added: seq<Window>, used: nat)
    ensures added == Added(text, interval, budget, windows) && used == |Piece(text, interval, budget)|
  {
    var end := Min(interval.end, interval.start + budget);
    var piece := Slice(text, interval.start, end);
    if piece == "" {
      return windows, 0;
    }
    added := windows + [WindowOf(text, interval, end, |windows|)];
    used := |piece|;
  }

  method ClipIntervals(text: string, intervals: seq<Interval>, maxChars: nat) returns (windows: seq<Window>)
    ensures windows == Clipped(text, intervals, maxChars, [])
  {
    windows := [];
    var remaining := maxChars;
    var rest := intervals;
    while rest != [] && remaining > 0
      invariant Clipped(text, intervals, maxChars, []) == Clipped(text, rest, remaining, windows)
      decreases |rest|
    {
      var used;
      windows, used := AddWindow(text, rest[0], remaining, windows);
      remaining := remaining - used;
      rest := rest[1..];
    }
  }

  /******* Windows are exact *******/

  // A non-empty slice of the text at its own offset, with a focus inside.
  ghost predicate Exact(window: Window, text: string) {
    && window.offset < window.end <= |text|
    && window.source == text[window.offset..window.end]
    && window.focus < |window.source|
  }

  function Length(windows: seq<Window>): nat {
    if windows == [] then 0 else Length(windows[..|windows| - 1]) + |windows[|windows| - 1].source|
  }

  // Exact windows, numbered from one.
  ghost predicate AllExact(windows: seq<Window>, text: string) {
    forall k :: 0 <= k < |windows| ==> Exact(windows[k], text) && windows[k].id == "w" + Decimal(k + 1)
  }

  ghost predicate Disjoint(windows: seq<Window>) {
    forall i, j :: 0 <= i < j < |windows| ==> windows[i].end <= windows[j].offset || windows[j].end <= windows[i].offset
  }

  ghost predicate Apart(intervals: seq<Interval>) {
    forall i, j :: 0 <= i < j < |intervals| ==> !Overlap(intervals[j], intervals[i])
  }

  ghost predicate Within(window: Window, interval: Interval) {
    interval.start == window.offset && window.end <= interval.end
  }

  lemma OneExactWindow(text: string, interval: Interval, budget: nat, count: nat)
    requires budget > 0
    ensures var end := Min(interval.end, interval.start + budget);
            var window := WindowOf(text, interval, end, count);
            && |window.source| <= budget
            && (interval.end <= |text| && window.source != "" ==> Exact(window, text) && Within(window, interval))
  {
  }

  // No window touches what is still to be cut.
  ghost predicate Clear(windows: seq<Window>, intervals: seq<Interval>) {
    forall k, i :: 0 <= k < |windows| && 0 <= i < |intervals|
      ==> windows[k].end <= intervals[i].start || intervals[i].end <= windows[k].offset
  }

  ghost predicate EndInside(intervals: seq<Interval>, text: string) {
    forall i :: 0 <= i < |intervals| ==> intervals[i].end <= |text|
  }

  lemma ClearAfter(windows: seq<Window>, window: Window, intervals: seq<Interval>)
    requires intervals != [] && Apart(intervals) && Clear(windows, intervals) && Within(window, intervals[0])
    requires Disjoint(windows)
    ensures Disjoint(windows + [window]) && Clear(windows + [window], intervals[1..]) && Apart(intervals[1..])
  {
  }

  lemma TailIsApart(intervals: seq<Interval>)
    requires intervals != [] && Apart(intervals)
    ensures Apart(intervals[1..])
  {
  }

  lemma OneMoreIsExact(text: string, windows: seq<Window>, window: Window)
    requires AllExact(windows, text) && Exact(window, text) && window.id == "w" + Decimal(|windows| + 1)
    ensures AllExact(windows + [window], text)
  {
    var more := windows + [window];
    forall k | 0 <= k < |more|
      ensures Exact(more[k], text) && more[k].id == "w" + Decimal(k + 1)
    {
      assert more[k] == if k < |windows| then windows[k] else window;
    }
  }

  lemma LengthOfOneMore(windows: seq<Window>, window: Window)
    ensures Length(windows + [window]) == Length(windows) + |window.source|
  {
    assert (windows + [window])[..|windows|] == windows;
  }

  lemma AddedIsExact(text: string, intervals: seq<Interval>, budget: nat, windows: seq<Window>)
    requires intervals != [] && budget > 0 && EndInside(intervals, text) && Apart(intervals)
    requires AllExact(windows, text) && Disjoint(windows) && Clear(windows, intervals)
    ensures var out := Added(text, intervals[0], budget, windows);
            && AllExact(out, text) && Disjoint(out) && Clear(out, intervals[1..])
            && Length(out) == Length(windows) + |Piece(text, intervals[0], budget)|
            && |out| <= |windows| + 1
  {
    if Piece(text, intervals[0], budget) == "" {
      LessToClear(windows, intervals);
    } else {
      OneExactWindow(text, intervals[0], budget, |windows|);
      var window := WindowOf(text, intervals[0], Min(intervals[0].end, intervals[0].start + budget), |windows|);
      ClearAfter(windows, window, intervals);
      OneMoreIsExact(text, windows, window);
      LengthOfOneMore(windows, window);
    }
  }

  lemma LessToClear(windows: seq<Window>, intervals: seq<Interval>)
    requires intervals != [] && Clear(windows, intervals)
    ensures Clear(windows, intervals[1..])
  {
  }

  // What cutting keeps at every step.
  ghost predicate CutSoFar(text: string, intervals: seq<Interval>, budget: nat, windows: seq<Window>, maxChars: nat,
                           most: nat)
  {
    && EndInside(intervals, text) && Apart(intervals)
    && AllExact(windows, text) && Disjoint(windows) && Clear(windows, intervals)
    && Length(windows) + budget <= maxChars
    && |windows| + |intervals| <= most
  }

  lemma CutOneMore(text: string, intervals: seq<Interval>, budget: nat, windows: seq<Window>, maxChars: nat, most: nat)
    requires intervals != [] && budget > 0 && CutSoFar(text, intervals, budget, windows, maxChars, most)
    ensures CutSoFar(text, intervals[1..], budget - |Piece(text, intervals[0], budget)|,
                     Added(text, intervals[0], budget, windows), maxChars, most)
  {
    AddedIsExact(text, intervals, budget, windows);
    TailIsApart(intervals);
  }

  // Whatever each cut keeps holds at the end.
  lemma {:induction false} ClippingKeeps(text: string, intervals: seq<Interval>, budget: nat, windows: seq<Window>,
                                         keeps: (seq<Interval>, nat, seq<Window>) -> bool)
    returns (rest: seq<Interval>, left: nat)
    requires keeps(intervals, budget, windows)
    requires forall i: seq<Interval>, b: nat, w: seq<Window> :: i != [] && b > 0 && keeps(i, b, w)
               ==> keeps(i[1..], b - |Piece(text, i[0], b)|, Added(text, i[0], b, w))
    ensures keeps(rest, left, Clipped(text, intervals, budget, windows))
    decreases |intervals|
  {
    if intervals == [] || budget == 0 {
      rest, left := intervals, budget;
    } else {
      rest, left := ClippingKeeps(text, intervals[1..], budget - |Piece(text, intervals[0], budget)|,
                                  Added(text, intervals[0], budget, windows), keeps);
    }
  }

  lemma ClippedIsExact(text: string, intervals: seq<Interval>, budget: nat)
    requires EndInside(intervals, text) && Apart(intervals)
    ensures var out := Clipped(text, intervals, budget, []);
            AllExact(out, text) && Disjoint(out) && Length(out) <= budget && |out| <= |intervals|
  {
    var most := |intervals|;
    var keeps := (i: seq<Interval>, b: nat, w: seq<Window>) => CutSoFar(text, i, b, w, budget, most);
    forall i: seq<Interval>, b: nat, w: seq<Window> | i != [] && b > 0 && keeps(i, b, w)
      ensures keeps(i[1..], b - |Piece(text, i[0], b)|, Added(text, i[0], b, w))
    {
      CutOneMore(text, i, b, w, budget, most);
    }
    var rest, left := ClippingKeeps(text, intervals, budget, [], keeps);
    assert CutSoFar(text, rest, left, Clipped(text, intervals, budget, []), budget, most);
  }

  lemma {:induction false} IntervalsAreApart(source: Source, keywords: seq<Keyword>, maxWindows: nat,
                                             taken: seq<Interval>)
    requires Apart(taken) && EndInside(taken, source.text)
    requires |taken| == 0 || |taken| < maxWindows
    ensures var intervals := Intervals(source, keywords, maxWindows, taken);
            && Apart(intervals) && EndInside(intervals, source.text)
            && |intervals| <= if maxWindows == 0 then 1 else maxWindows
    decreases |keywords|
  {
    if keywords != [] {
      var position := Chosen(source, keywords[0]);
      if position < 0 || OverlapsAny(Around(source, keywords[0], position), taken) {
        IntervalsAreApart(source, keywords[1..], maxWindows, taken);
      } else if |taken| + 1 < maxWindows {
        IntervalsAreApart(source, keywords[1..], maxWindows, taken + [Around(source, keywords[0], position)]);
      }
    }
  }

  /******* Every keyword that has room *******/

  // The interval a keyword asks for, if it hits.
  function AskedBy(source: Source, keyword: Keyword): Option<Interval> {
    var position := Chosen(source, keyword);
    if position < 0 then None else Some(Around(source, keyword, position))
  }

  function AllAsked(source: Source, keywords: seq<Keyword>): (asked: seq<Option<Interval>>)
    ensures |asked| == |keywords| && forall i :: 0 <= i < |asked| ==> asked[i] == AskedBy(source, keywords[i])
  {
    seq(|keywords|, i requires 0 <= i < |keywords| => AskedBy(source, keywords[i]))
  }

  // Intervals that overlap keep each other out.
  ghost function ByOverlap(): Rule<Option<Interval>> {
    Rule((o: Option<Interval>) => o.None?,
         (a: Option<Interval>, b: Option<Interval>) => a.Some? && b.Some? && Overlap(a.value, b.value))
  }

  function Wrapped(intervals: seq<Interval>): seq<Option<Interval>> {
    seq(|intervals|, i requires 0 <= i < |intervals| => Some(intervals[i]))
  }

  lemma KeptOutByOverlap(asked: seq<Option<Interval>>, taken: seq<nat>, intervals: seq<Interval>, i: nat)
    requires i < |asked| && Increasing(taken, i) && Increasing(taken, |asked|)
    requires Wrapped(intervals) == ItemsAt(asked, taken)
    ensures KeptOut(asked, ByOverlap(), taken, i)
            <==> asked[i].None? || OverlapsAny(asked[i].value, intervals)
  {
    var rule := ByOverlap();
    assert |intervals| == |taken| by { assert |Wrapped(intervals)| == |ItemsAt(asked, taken)|; }
    forall k | 0 <= k < |taken|
      ensures asked[taken[k]] == Some(intervals[k])
    {
      assert Wrapped(intervals)[k] == ItemsAt(asked, taken)[k];
    }
    if asked[i].Some? && OverlapsAny(asked[i].value, intervals) {
      var k :| 0 <= k < |intervals| && Overlap(asked[i].value, intervals[k]);
      assert rule.clash(asked[i], asked[taken[k]]);
    }
  }

  lemma WrappedOneMore(asked: seq<Option<Interval>>, taken: seq<nat>, intervals: seq<Interval>, i: nat)
    requires i < |asked| && Increasing(taken, |asked|) && Increasing(taken + [i], |asked|) && asked[i].Some?
    requires Wrapped(intervals) == ItemsAt(asked, taken)
    ensures Wrapped(intervals + [asked[i].value]) == ItemsAt(asked, taken + [i])
  {
    assert Wrapped(intervals + [asked[i].value]) == Wrapped(intervals) + [asked[i]];
    assert ItemsAt(asked, taken + [i]) == ItemsAt(asked, taken) + [asked[i]];
  }

  lemma NextInterval(source: Source, keywords: seq<Keyword>, maxWindows: nat, i: nat, intervals: seq<Interval>)
    requires i < |keywords|
    ensures var asked, rest := AskedBy(source, keywords[i]), keywords[i + 1..];
            Intervals(source, keywords[i..], maxWindows, intervals)
            == (if asked.None? || OverlapsAny(asked.value, intervals)
                then Intervals(source, rest, maxWindows, intervals)
                else if |intervals| + 1 >= maxWindows then intervals + [asked.value]
                else Intervals(source, rest, maxWindows, intervals + [asked.value]))
  {
    assert keywords[i..][1..] == keywords[i + 1..];
  }

  lemma {:induction false} IntervalsTake(source: Source, keywords: seq<Keyword>, maxWindows: nat, i: nat,
                                         taken: seq<nat>, intervals: seq<Interval>)
    returns (all: seq<nat>)
    requires i <= |keywords| && FirstFree(AllAsked(source, keywords)[..i], ByOverlap(), Max(1, maxWindows), taken)
    requires |taken| < Max(1, maxWindows) && Increasing(taken, |keywords|)
    requires Wrapped(intervals) == ItemsAt(AllAsked(source, keywords), taken)
    ensures FirstFree(AllAsked(source, keywords), ByOverlap(), Max(1, maxWindows), all)
    ensures Wrapped(Intervals(source, keywords[i..], maxWindows, intervals)) == ItemsAt(AllAsked(source, keywords), all)
    decreases |keywords| - i
  {
    var asked, rule, room := AllAsked(source, keywords), ByOverlap(), Max(1, maxWindows);
    all := taken;
    if i == |keywords| {
      assert asked[..i] == asked;
    } else {
      assert asked[..i + 1][..i] == asked[..i];
      assert |intervals| == |taken| by { assert |Wrapped(intervals)| == |ItemsAt(asked, taken)|; }
      NextInterval(source, keywords, maxWindows, i, intervals);
      KeptOutByOverlap(asked, taken, intervals, i);
      KeptOutInFront(asked, rule, taken, i + 1, i);
      if KeptOut(asked, rule, taken, i) {
        OneMoreLeft(asked[..i + 1], rule, room, taken, i);
        all := IntervalsTake(source, keywords, maxWindows, i + 1, taken, intervals);
      } else {
        OneMoreTaken(asked[..i + 1], rule, room, taken, i);
        WrappedOneMore(asked, taken, intervals, i);
        all := taken + [i];
        if |all| == room {
          NoRoomLeft(asked, rule, room, all, i + 1);
        } else {
          all := IntervalsTake(source, keywords, maxWindows, i + 1, all, intervals + [asked[i].value]);
        }
      }
    }
  }

  // The intervals are exactly those of the first keywords that hit and whose interval is free, as
  // many as there are windows: a keyword gets none only if it does not hit, if its interval
  // overlaps that of an earlier one, or if the windows are used up.
  lemma IntervalsAreFirstFree(source: Source, keywords: seq<Keyword>, maxWindows: nat) returns (taken: seq<nat>)
    ensures FirstFree(AllAsked(source, keywords), ByOverlap(), Max(1, maxWindows), taken)
    ensures Wrapped(Intervals(source, keywords, maxWindows, [])) == ItemsAt(AllAsked(source, keywords), taken)
  {
    assert AllAsked(source, keywords)[..0] == [] && keywords[0..] == keywords;
    assert ItemsAt(AllAsked(source, keywords), []) == [] && Wrapped([]) == [];
    taken := IntervalsTake(source, keywords, maxWindows, 0, [], []);
  }

  lemma FallbackIsApart(source: Source, maxChars: nat)
    requires |source.text| > maxChars
    ensures Apart(Fallback(source, maxChars)) && EndInside(Fallback(source, maxChars), source.text)
  {
  }

  // Windows of a long source are pairwise disjoint exact slices, with a focus inside, numbered
  // from one, no longer together than the budget.
  lemma LongWindowsAreExact(source: Source, keywords: seq<Keyword>, maxChars: nat, maxWindows: nat)
    requires |source.text| > maxChars
    ensures var windows := LongWindows(source, keywords, maxChars, maxWindows);
            && AllExact(windows, source.text)
            && Disjoint(windows)
            && Length(windows) <= maxChars
            && |windows| <= if maxWindows < 2 then 2 else maxWindows
  {
    IntervalsAreApart(source, keywords, maxWindows, []);
    FallbackIsApart(source, maxChars);
    var found := Intervals(source, keywords, maxWindows, []);
    var intervals := if found == [] then Fallback(source, maxChars) else found;
    ClippedIsExact(source.text, intervals, maxChars);
  }

  /******* Nothing asked for is lost within the budget *******/

  // The text of the windows, one behind the other.
  function Shown(windows: seq<Window>): string {
    if windows == [] then "" else Shown(windows[..|windows| - 1]) + windows[|windows| - 1].source
  }

  // The text the intervals ask for, one behind the other.
  function Wanted(text: string, intervals: seq<Interval>): string {
    if intervals == [] then "" else Slice(text, intervals[0].start, intervals[0].end) + Wanted(text, intervals[1..])
  }

  lemma PieceIsTaken(text: string, interval: Interval, budget: nat)
    ensures Piece(text, interval, budget) == Take(Slice(text, interval.start, interval.end), budget)
  {
    var start, end := interval.start, Min(interval.end, |text|);
    if start + budget < end { SliceOfSlice(text, start, end, 0, budget); }
  }

  lemma TakeOfTwo(front: string, a: string, b: string, budget: nat)
    ensures (front + Take(a, budget)) + Take(b, budget - |Take(a, budget)|) == front + Take(a + b, budget)
  {
    assert Take(a + b, budget) == Take(a, budget) + Take(b, budget - |Take(a, budget)|);
  }

  lemma ShownOneMore(text: string, interval: Interval, budget: nat, windows: seq<Window>)
    ensures Shown(Added(text, interval, budget, windows)) == Shown(windows) + Piece(text, interval, budget)
  {
    var added := Added(text, interval, budget, windows);
    if added != windows { assert added[..|added| - 1] == windows; }
  }

  lemma {:induction false} ClippedShows(text: string, intervals: seq<Interval>, budget: nat, windows: seq<Window>)
    ensures Shown(Clipped(text, intervals, budget, windows)) == Shown(windows) + Take(Wanted(text, intervals), budget)
    decreases |intervals|
  {
    if intervals != [] && budget > 0 {
      var piece, rest := Piece(text, intervals[0], budget), Wanted(text, intervals[1..]);
      ShownOneMore(text, intervals[0], budget, windows);
      ClippedShows(text, intervals[1..], budget - |piece|, Added(text, intervals[0], budget, windows));
      PieceIsTaken(text, intervals[0], budget);
      TakeOfTwo(Shown(windows), Slice(text, intervals[0].start, intervals[0].end), rest, budget);
    }
  }

  // The window is cut from the interval: its start, its reason, and its focus unless that is cut off.
  ghost predicate CutFrom(window: Window, interval: Interval) {
    && Within(window, interval) && window.reason == interval.reason && window.offset < window.end
    && (interval.start <= interval.focus ==> window.offset + window.focus == Min(interval.focus, window.end - 1))
  }

  ghost predicate CutFromSome(window: Window, intervals: seq<Interval>) {
    exists i :: 0 <= i < |intervals| && CutFrom(window, intervals[i])
  }

  lemma {:induction false} ClippedAreCuts(text: string, all: seq<Interval>, i: nat, budget: nat, windows: seq<Window>)
    requires i <= |all| && EndInside(all, text)
    requires forall w :: w in windows ==> CutFromSome(w, all)
    ensures forall w :: w in Clipped(text, all[i..], budget, windows) ==> CutFromSome(w, all)
    decreases |all| - i
  {
    if i < |all| && budget > 0 {
      assert all[i..][1..] == all[i + 1..];
      var piece, added := Piece(text, all[i], budget), Added(text, all[i], budget, windows);
      if piece != "" {
        var end := Min(all[i].end, all[i].start + budget);
        assert CutFrom(WindowOf(text, all[i], end, |windows|), all[i]);
      }
      assert forall w :: w in added ==> CutFromSome(w, all);
      ClippedAreCuts(text, all, i + 1, budget - |piece|, added);
    }
  }

  // Main result on a long source: laid end to end, its windows are what the intervals ask for, cut
  // only where the budget ends; each keeps the reason and the focus of its interval.
  lemma LongWindowsShowEverything(source: Source, keywords: seq<Keyword>, maxChars: nat, maxWindows: nat)
    requires |source.text| > maxChars
    ensures var found := Intervals(source, keywords, maxWindows, []);
            var intervals := if found == [] then Fallback(source, maxChars) else found;
            var windows := LongWindows(source, keywords, maxChars, maxWindows);
            && Shown(windows) == Take(Wanted(source.text, intervals), maxChars)
            && forall w :: w in windows ==> CutFromSome(w, intervals)
  {
    IntervalsAreApart(source, keywords, maxWindows, []);
    FallbackIsApart(source, maxChars);
    var found := Intervals(source, keywords, maxWindows, []);
    var intervals := if found == [] then Fallback(source, maxChars) else found;
    ClippedShows(source.text, intervals, maxChars, []);
    assert intervals[0..] == intervals;
    ClippedAreCuts(source.text, intervals, 0, maxChars, []);
  }

  /******* The focus of a short source *******/

  lemma FirstFromIsListed(positions: seq<nat>, minimum: nat)
    requires positions != []
    ensures FirstFrom(positions, minimum) in positions
  {
    var k := FirstFromIsFirst(positions, minimum);
  }

  // It is that of the first keyword that hits, and the middle when none does.
  lemma {:induction false} FocusIsFirstHit(source: Source, keywords: seq<Keyword>) returns (k: nat)
    ensures k <= |keywords| && forall i :: 0 <= i < k ==> Positions(source, keywords[i]) == []
    ensures if k < |keywords|
            then Positions(source, keywords[k]) != []
                 && FocusPosition(source, keywords)
                    == (FirstFrom(Positions(source, keywords[k]), MinimumOffset(source)), keywords[k].word)
            else FocusPosition(source, keywords).1 == "full_source"
                 && (source.text != "" ==> FocusPosition(source, keywords).0 == |source.text| / 2)
  {
    k := 0;
    if keywords != [] && Positions(source, keywords[0]) == [] {
      var j := FocusIsFirstHit(source, keywords[1..]);
      k := j + 1;
      assert forall i :: 1 <= i < k ==> keywords[i] == keywords[1..][i - 1];
    }
  }

  // Keywords as the caller builds them: never blank, and functions found in the text itself.
  ghost predicate WellPlaced(source: Source, keywords: seq<Keyword>) {
    forall i :: 0 <= i < |keywords| ==> Placed(source, keywords[i])
  }

  ghost predicate Placed(source: Source, keyword: Keyword) {
    keyword.word != "" && (keyword.Named? ==> forall m :: m in keyword.middles ==> m < |source.text|)
  }

  lemma ChosenIsInside(source: Source, keyword: Keyword)
    requires Placed(source, keyword)
    ensures Chosen(source, keyword) >= 0
            ==> Chosen(source, keyword) < |source.text|
                || (keyword.Plain? && OccursAt(source.lowered, keyword.word, Chosen(source, keyword)))
  {
    var positions := Positions(source, keyword);
    if positions != [] {
      FirstFromIsListed(positions, MinimumOffset(source));
      var p := FirstFrom(positions, MinimumOffset(source));
      if keyword.Plain? {
        HitsAreFirst(source.lowered, keyword.word);
      } else {
        assert p in keyword.middles;
      }
    }
  }

  // The focus of a short source is in range as long as folding case makes the text no longer.
  lemma {:induction false} ShortFocusIsInside(source: Source, keywords: seq<Keyword>)
    requires source.text != "" && WellPlaced(source, keywords) && |source.lowered| <= |source.text|
    ensures FocusPosition(source, keywords).0 < |source.text|
    decreases |keywords|
  {
    if keywords != [] {
      ChosenIsInside(source, keywords[0]);
      if Chosen(source, keywords[0]) < 0 { ShortFocusIsInside(source, keywords[1..]); }
    }
  }

  // The hits put the focus inside a text of this length: one lies behind the skipped head and in
  // front of the end, or none lies behind the head.
  predicate HitsFit(positions: seq<nat>, minimum: nat, length: nat) {
    || (exists i :: 0 <= i < |positions| && minimum <= positions[i] < length)
    || (forall i :: 0 <= i < |positions| ==> positions[i] < minimum)
  }

  // What keeps the focus of a short source inside: the first keyword that hits at all names a
  // function, or its hits fit.
  predicate FocusFits(source: Source, keywords: seq<Keyword>) {
    if keywords == [] then true
    else if Positions(source, keywords[0]) == [] then FocusFits(source, keywords[1..])
    else keywords[0].Named? || HitsFit(Positions(source, keywords[0]), MinimumOffset(source), |source.text|)
  }

  lemma {:induction false} FirstFromFits(positions: seq<nat>, minimum: nat, length: nat)
    requires positions != [] && minimum <= length
    requires forall i, j :: 0 <= i < j < |positions| ==> positions[i] < positions[j]
    ensures FirstFrom(positions, minimum) < length <==> HitsFit(positions, minimum, length)
  {
    if positions[0] < minimum && |positions| > 1 {
      FirstFromFits(positions[1..], minimum, length);
    }
  }

  lemma {:induction false} FocusFitsExactly(source: Source, keywords: seq<Keyword>)
    requires source.text != "" && WellPlaced(source, keywords)
    ensures FocusPosition(source, keywords).0 < |source.text| <==> FocusFits(source, keywords)
    decreases |keywords|
  {
    if keywords != [] {
      var positions := Positions(source, keywords[0]);
      if positions == [] {
        FocusFitsExactly(source, keywords[1..]);
      } else if keywords[0].Plain? {
        HitsAreFirst(source.lowered, keywords[0].word);
        FirstFromFits(positions, MinimumOffset(source), |source.text|);
      } else {
        ChosenIsInside(source, keywords[0]);
      }
    }
  }

  // A slice of the text at its own offset, numbered from one.
  ghost predicate Sliced(windows: seq<Window>, text: string) {
    forall k :: 0 <= k < |windows| ==>
      && windows[k].offset < windows[k].end <= |text|
      && windows[k].source == text[windows[k].offset..windows[k].end]
      && windows[k].id == "w" + Decimal(k + 1)
  }

  ghost predicate FocusInside(windows: seq<Window>) {
    forall k :: 0 <= k < |windows| ==> windows[k].focus < |windows[k].source|
  }

  // All together, with the exact condition under which the promise of a focus inside holds.
  lemma WindowsAreExact(source: Source, keywords: seq<Keyword>, maxChars: nat, maxWindows: nat)
    ensures var windows := Windows(source, keywords, maxChars, maxWindows);
            && Sliced(windows, source.text)
            && Disjoint(windows)
            && Length(windows) <= maxChars
            && |windows| <= (if maxWindows < 2 then 2 else maxWindows)
            && (WellPlaced(source, keywords) ==>
                  (FocusInside(windows) <==> Blank(source) || |source.text| > maxChars || FocusFits(source, keywords)))
  {
    if !Blank(source) {
      if |source.text| > maxChars {
        LongWindowsAreExact(source, keywords, maxChars, maxWindows);
      } else {
        var window := Windows(source, keywords, maxChars, maxWindows)[0];
        assert source.text[0..|source.text|] == source.text;
        assert Decimal(1) == "1";
        assert Windows(source, keywords, maxChars, maxWindows) == [window];
        if WellPlaced(source, keywords) { FocusFitsExactly(source, keywords); }
      }
    }
  }

  method ForceSourceWindows(source: Source, keywords: seq<Keyword>, maxChars: nat, maxWindows: nat)
    returns (windows: seq<Window>)
    ensures windows == Windows(source, keywords, maxChars, maxWindows)
    ensures Sliced(windows, source.text) && Disjoint(windows) && Length(windows) <= maxChars
    ensures |windows| <= if maxWindows < 2 then 2 else maxWindows
    ensures WellPlaced(source, keywords) ==>
              (FocusInside(windows) <==> Blank(source) || |source.text| > maxChars || FocusFits(source, keywords))
  {
    WindowsAreExact(source, keywords, maxChars, maxWindows);
    if Blank(source) {
      return [];
    }
    if |source.text| <= maxChars {
      var (focus, reason) := FocusPosition(source, keywords);
      return [Window("w1", 0, |source.text|, reason, focus, source.text)];
    }
    var intervals := GatherIntervals(source, keywords, maxWindows);
    if intervals == [] {
      intervals := Fallback(source, maxChars);
    }
    windows := ClipIntervals(source.text, intervals, maxChars);
  }

  /******* The keywords of an unlisted failure *******/

  const DEFAULT_KEYWORDS: seq<Keyword> :=
    [Plain("resolve"), Plain("fetch("), Plain("search"), Plain("player"), Plain("embed"), Plain("source")]

  // Nowhere does a character of the text start the word with its next one.
  ghost predicate NeverStarts(text: string, word: string)
    requires |word| >= 2
  {
    forall i {:trigger text[i]} :: 0 <= i && i + 1 < |text| ==> text[i] != word[0] || text[i + 1] != word[1]
  }

  lemma NoHits(source: Source, word: string)
    requires |word| >= 2 && NeverStarts(source.lowered, word)
    ensures Positions(source, Plain(word)) == []
  {
    FindIsLeftmost(source.lowered, word, 0);
    forall i | 0 <= i && i + |word| <= |source.lowered|
      ensures !OccursAt(source.lowered, word, i)
    {
      var there := source.lowered[i..i + |word|];
      assert there[0] == source.lowered[i] && there[1] == source.lowered[i + 1];
    }
  }

  lemma {:induction false} FirstHitDecides(source: Source, keywords: seq<Keyword>, n: nat)
    requires n <= |keywords| && forall i :: 0 <= i < n ==> Positions(source, keywords[i]) == []
    ensures FocusPosition(source, keywords) == FocusPosition(source, keywords[n..])
  {
    if n > 0 {
      FirstHitDecides(source, keywords[1..], n - 1);
      assert keywords[1..][n - 1..] == keywords[n..];
    }
  }

  ghost predicate NoOtherStarts(text: string) {
    && NeverStarts(text, "resolve") && NeverStarts(text, "fetch(") && NeverStarts(text, "search")
    && NeverStarts(text, "player") && NeverStarts(text, "embed")
  }

  // Where the focus of a short source falls by the last of the default keywords.
  lemma DefaultFocus(source: Source)
    requires NoOtherStarts(source.lowered)
    ensures FocusPosition(source, DEFAULT_KEYWORDS) == FocusPosition(source, [Plain("source")])
    ensures NeverStarts(source.lowered, "source")
            ==> FocusPosition(source, DEFAULT_KEYWORDS) == FocusPosition(source, [])
  {
    NoHits(source, "resolve");
    NoHits(source, "fetch(");
    NoHits(source, "search");
    NoHits(source, "player");
    NoHits(source, "embed");
    FirstHitDecides(source, DEFAULT_KEYWORDS, 5);
    assert DEFAULT_KEYWORDS[5..] == [Plain("source")];
    if NeverStarts(source.lowered, "source") {
      NoHits(source, "source");
      FirstHitDecides(source, [Plain("source")], 1);
    }
  }

  // Full case folding turns a sharp s into two letters.
  function Folded(text: string): string {
    if text == "" then "" else (if text[0] == '\U{df}' then "ss" else [text[0]]) + Folded(text[1..])
  }

  // Folding that lengthens the text can put the focus of a short source behind its end.
  lemma FoldingLosesFocus()
    ensures var text := "\U{df}\U{df}a";
            var source := Source(text, Folded(text), _ => false);
            var windows := Windows(source, [Plain("a")], 4000, 4);
            |windows| == 1 && windows[0].source == text && windows[0].focus >= |text|
  {
    var text := "\U{df}\U{df}a";
    assert text[1..] == "\U{df}a" && text[1..][1..] == "a" && text[1..][1..][1..] == "";
    assert Folded("a") == "a";
    assert Folded("\U{df}a") == "ssa";
    assert Folded(text) == "ssssa";
    var source := Source(text, "ssssa", _ => false);
    OnlyAtTheEnd();
    assert Hits("ssssa", "a", 0, []) == Hits("ssssa", "a", 5, [4]);
    FindIsLeftmost("ssssa", "a", 5);
    assert Find("ssssa", "a", 5) < 0;
    assert Positions(source, Plain("a")) == [4];
  }

  lemma OnlyAtTheEnd()
    ensures Find("ssssa", "a", 0) == 4
  {
    var text := "ssssa";
    FindIsLeftmost(text, "a", 0);
    assert text[4..5] == "a";
    assert OccursAt(text, "a", 4);
    forall i | OccursAt(text, "a", i)
      ensures i == 4
    {
      assert text[i..i + 1][0] == text[i] == 'a';
    }
  }
}
