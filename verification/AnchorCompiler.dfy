/**
 The exact-byte edit compiler of `planner.py`: a semantic edit of one chosen
 occurrence is trimmed, widened with unchanged text until its find string counts
 once in the source, and applied as a first-occurrence replace.
 */
module AnchorCompiler {
  import opened Basics
  import opened PythonText
  import SourceWindows

  datatype Reason =
    | MissingSource | MissingFind | Drifted | UnknownWindow | NotInAnyWindow | Ambiguous | NotUnique
    | NoOp | PartialFunction | Unresolvable | ReplacementTooLarge | Oversized
    | RemovedLiveBinding | EmptyDeletion

  datatype Outcome<+T> = Ok(value: T) | Rejected(reason: Reason)

  // find/replace pair together with the position of `find` it stands for.
  datatype Anchor = Anchor(find: string, replace: string, start: nat)

  // The windows a model chose from, as the selector cut them.
  type Window = SourceWindows.Window

  // The regular-expression guards of the compiler, as arbitrary tests.
  datatype Guards = Guards(
    normalized: string -> string,
    declaresFunction: string -> bool,
    partialFunction: (string, string) -> bool,
    removesLiveBinding: (string, nat, string, string) -> bool,
    emptyDeletion: (string, string) -> bool)
  {
    predicate IdentityEdit(find: string, replace: string) {
      find == replace || normalized(find) == normalized(replace)
    }
  }

  /******* Trimming *******/

  ghost predicate IsTrim(find: string, replace: string, prefix: nat, suffix: nat) {
    && prefix + suffix <= |find| && prefix + suffix <= |replace|
    && find[..prefix] == replace[..prefix]
    && find[|find| - suffix..] == replace[|replace| - suffix..]
  }

  // No further character can be trimmed, the prefix having gone first.
  ghost predicate IsMaximalTrim(find: string, replace: string, prefix: nat, suffix: nat) {
    && IsTrim(find, replace, prefix, suffix)
    && (prefix < |find| && prefix < |replace| ==> find[prefix] != replace[prefix])
    && (prefix + suffix < |find| && prefix + suffix < |replace| ==>
          find[|find| - suffix - 1] != replace[|replace| - suffix - 1])
  }

  function PrefixFrom(find: string, replace: string, n: nat): (p: nat)
    requires IsTrim(find, replace, n, 0)
    ensures IsTrim(find, replace, p, 0)
    ensures p < |find| && p < |replace| ==> find[p] != replace[p]
    decreases |find| - n
  {
    if n < |find| && n < |replace| && find[n] == replace[n] then PrefixFrom(find, replace, n + 1) else n
  }

  lemma LongerSuffix(find: string, replace: string, p: nat, n: nat)
    requires IsTrim(find, replace, p, n) && p + n < |find| && p + n < |replace|
    requires find[|find| - n - 1] == replace[|replace| - n - 1]
    ensures IsTrim(find, replace, p, n + 1)
  {
  }

  function SuffixFrom(find: string, replace: string, p: nat, n: nat): (s: nat)
    requires IsTrim(find, replace, p, n)
    requires p < |find| && p < |replace| ==> find[p] != replace[p]
    ensures IsMaximalTrim(find, replace, p, s)
    decreases |find| - n
  {
    if p + n < |find| && p + n < |replace| && find[|find| - n - 1] == replace[|replace| - n - 1] then
      LongerSuffix(find, replace, p, n);
      SuffixFrom(find, replace, p, n + 1)
    else n
  }

  // How much of the edit is unchanged at its two ends.
  function TrimOf(find: string, replace: string): (t: (nat, nat))
    ensures IsMaximalTrim(find, replace, t.0, t.1)
  {
    assert find[|find|..] == replace[|replace|..];
    var p := PrefixFrom(find, replace, 0);
    (p, SuffixFrom(find, replace, p, 0))
  }

  // The edit without its unchanged ends; a pure insertion has no bytes left to find
  // and is kept whole.
  function TrimmedAnchor(start: nat, find: string, replace: string): Anchor {
    var (p, s) := TrimOf(find, replace);
    Cut(start, find, replace, p, s)
  }

  function Cut(start: nat, find: string, replace: string, p: nat, s: nat): Anchor
    requires p + s <= |find| && p + s <= |replace|
  {
    if p + s == |find| then Anchor(find, replace, start)
    else Anchor(find[p..|find| - s], replace[p..|replace| - s], start + p)
  }

  method CommonEnds(find: string, replace: string) returns (prefix: nat, suffix: nat)
    ensures (prefix, suffix) == TrimOf(find, replace)
  {
    prefix, suffix := 0, 0;
    while prefix < |find| && prefix < |replace| && find[prefix] == replace[prefix]
      invariant IsTrim(find, replace, prefix, 0)
    {
      prefix := prefix + 1;
    }
    while prefix + suffix < |find| && prefix + suffix < |replace|
          && find[|find| - suffix - 1] == replace[|replace| - suffix - 1]
      invariant IsTrim(find, replace, prefix, suffix)
    {
      LongerSuffix(find, replace, prefix, suffix);
      suffix := suffix + 1;
    }
    MaximalTrimIsUnique(find, replace, prefix, suffix);
  }

  method MinimizeLocalEdit(find: string, replace: string)
    returns (trimmedFind: string, trimmedReplace: string, prefix: nat)
    ensures forall start: nat ::
              Anchor(trimmedFind, trimmedReplace, start + prefix) == TrimmedAnchor(start, find, replace)
  {
    if find == "" {
      return find, replace, 0;
    }
    var suffix;
    prefix, suffix := CommonEnds(find, replace);
    trimmedFind, trimmedReplace := find[prefix..|find| - suffix], replace[prefix..|replace| - suffix];
    if trimmedFind == "" {
      trimmedFind, trimmedReplace, prefix := find, replace, 0;
    }
  }

  lemma MaximalTrimIsUnique(find: string, replace: string, p: nat, s: nat)
    requires IsMaximalTrim(find, replace, p, s)
    ensures TrimOf(find, replace) == (p, s)
  {
  }

  lemma TrimKeepsEdit(source: string, start: nat, find: string, replace: string, prefix: nat, suffix: nat)
    requires OccursAt(source, find, start) && IsTrim(find, replace, prefix, suffix)
    ensures OccursAt(source, find[prefix..|find| - suffix], start + prefix)
    ensures Splice(source, start + prefix, |find[prefix..|find| - suffix]|, replace[prefix..|replace| - suffix])
            == Splice(source, start, |find|, replace)
  {
    var n, m := |find| - suffix, |replace| - suffix;
    ThreeParts(find, prefix, n);
    ThreeParts(replace, prefix, m);
    PartsKeepEdit(source, start, find, replace, find[..prefix], find[prefix..n], replace[prefix..m], find[n..],
                  start + prefix);
  }

  lemma PartsKeepEdit(source: string, start: nat, find: string, replace: string,
                      before: string, mid: string, mid': string, after: string, i: nat)
    requires OccursAt(source, find, start) && i == start + |before|
    requires find == before + mid + after && replace == before + mid' + after
    ensures OccursAt(source, mid, i) && Splice(source, i, |mid|, mid') == Splice(source, start, |find|, replace)
  {
    SpliceInside(source, start, before, mid, after, mid', i);
  }

  lemma ThreeParts(text: string, i: nat, j: nat)
    requires i <= j <= |text|
    ensures text == text[..i] + text[i..j] + text[j..]
  {
  }

  /******* Widening *******/

  ghost predicate AnchorIn(source: string, a: Anchor) {
    a.find != "" && OccursAt(source, a.find, a.start)
  }

  // What applying the anchor at its own position gives.
  function Applied(source: string, a: Anchor): string
    requires a.start + |a.find| <= |source|
  {
    Splice(source, a.start, |a.find|, a.replace)
  }

  function Grown(source: string, a: Anchor, left: nat, right: nat): (b: Anchor)
    requires left <= a.start && a.start + |a.find| + right <= |source|
    ensures |b.find| == left + |a.find| + right && |b.replace| == left + |a.replace| + right
    ensures b.start == a.start - left
  {
    var from, to := a.start - left, a.start + |a.find|;
    var before, after := source[from..a.start], source[to..to + right];
    Anchor(before + a.find + after, before + a.replace + after, from)
  }

  // One round of the widening loop decides how far to reach on each side.
  function Reach(source: string, a: Anchor, maxFind: int): (r: (int, int))
    requires a.start + |a.find| <= |source| && |a.find| < maxFind
    ensures 0 <= r.0 <= a.start && 0 <= r.1 <= |source| - a.start - |a.find|
  {
    var step := Min(12, Max(1, (maxFind - |a.find|) / 2));
    (Min(step, a.start), Min(step, |source| - a.start - |a.find|))
  }

  function Widened(source: string, a: Anchor, maxFind: int, maxReplace: int): Outcome<Anchor>
    requires a.find != "" && a.start + |a.find| <= |source|
    decreases |source| - |a.find|
  {
    if Count(source, a.find, 0) == 1 then Ok(a)
    else if |a.find| >= maxFind then Rejected(Unresolvable)
    else
      var (left, right) := Reach(source, a, maxFind);
      if left <= 0 && right <= 0 then Rejected(Unresolvable)
      else
        var b := Grown(source, a, left, right);
        if |b.replace| > maxReplace then Rejected(ReplacementTooLarge)
        else Widened(source, b, maxFind, maxReplace)
  }

  // b stands for the same edit as a and covers at least its text.
  ghost predicate Extends(source: string, a: Anchor, b: Anchor) {
    && AnchorIn(source, a) && AnchorIn(source, b)
    && Applied(source, b) == Applied(source, a)
    && b.start <= a.start && a.start + |a.find| <= b.start + |b.find|
  }

  lemma OccursWithin(source: string, from: nat, at: nat, mid: string, to: nat, end: nat)
    requires from <= at <= to <= end <= |source| && OccursAt(source, mid, at) && to == at + |mid|
    ensures OccursAt(source, source[from..at] + mid + source[to..end], from)
  {
    assert source[from..at] + mid == source[from..to];
    assert source[from..to] + source[to..end] == source[from..end];
  }

  lemma GrowthKeepsEdit(source: string, a: Anchor, left: nat, right: nat)
    requires AnchorIn(source, a) && left <= a.start && a.start + |a.find| + right <= |source|
    ensures Extends(source, a, Grown(source, a, left, right))
  {
    var from, to := a.start - left, a.start + |a.find|;
    OccursWithin(source, from, a.start, a.find, to, to + right);
    var before, after := source[from..a.start], source[to..to + right];
    FrameKeepsEdit(source, a, from, before, after);
    assert Grown(source, a, left, right) == Anchor(before + a.find + after, before + a.replace + after, from);
  }

  lemma FrameKeepsEdit(source: string, a: Anchor, from: nat, before: string, after: string)
    requires AnchorIn(source, a) && from + |before| == a.start && OccursAt(source, before + a.find + after, from)
    ensures Extends(source, a, Anchor(before + a.find + after, before + a.replace + after, from))
  {
    SpliceInside(source, from, before, a.find, after, a.replace, a.start);
  }

  // Every widening step adds the same unchanged text to both sides of the edit: the
  // edit keeps its meaning and only grows, until its find string counts once.
  lemma {:induction false} WideningKeepsEdit(source: string, a: Anchor, maxFind: int, maxReplace: int, b: Anchor)
    requires AnchorIn(source, a) && Widened(source, a, maxFind, maxReplace) == Ok(b)
    ensures Extends(source, a, b) && Count(source, b.find, 0) == 1
    decreases |source| - |a.find|
  {
    if Count(source, a.find, 0) != 1 {
      var (left, right) := Reach(source, a, maxFind);
      var c := Grown(source, a, left, right);
      GrowthKeepsEdit(source, a, left, right);
      WideningKeepsEdit(source, c, maxFind, maxReplace, b);
    }
  }

  // A step overshoots the find cap by one at most, and never the replacement cap.
  lemma {:induction false} WideningBounds(source: string, a: Anchor, maxFind: int, maxReplace: int, b: Anchor)
    requires a.find != "" && a.start + |a.find| <= |source|
    requires Widened(source, a, maxFind, maxReplace) == Ok(b)
    ensures |b.find| <= Max(|a.find|, maxFind + 1) && |b.replace| <= Max(|a.replace|, maxReplace)
    decreases |source| - |a.find|
  {
    if Count(source, a.find, 0) != 1 {
      var (left, right) := Reach(source, a, maxFind);
      WideningBounds(source, Grown(source, a, left, right), maxFind, maxReplace, b);
    }
  }

  // The loop never runs out of surrounding text: an anchor with nothing left to
  // add is the whole source, which counts once. Only the size caps stop it.
  lemma NoRoomMeansUnique(source: string, a: Anchor, maxFind: int)
    requires AnchorIn(source, a) && |a.find| < maxFind
    requires Reach(source, a, maxFind) == (0, 0)
    ensures a.find == source && Count(source, a.find, 0) == 1
  {
  }

  lemma WholeAnchorIsUnique(source: string, a: Anchor)
    requires AnchorIn(source, a) && |a.find| == |source|
    ensures Count(source, a.find, 0) == 1
  {
    assert a.find == source[0..|source|] == source;
    WholeTextIsUnique(source);
  }

  // With caps that admit the whole source, widening always succeeds.
  lemma {:induction false} WideningSucceedsWithinCaps(source: string, a: Anchor, maxFind: int, maxReplace: int)
    requires AnchorIn(source, a)
    requires |source| <= maxFind && |source| - |a.find| + |a.replace| <= maxReplace
    ensures Widened(source, a, maxFind, maxReplace).Ok?
    decreases |source| - |a.find|
  {
    if Count(source, a.find, 0) != 1 {
      if |a.find| == |source| {
        WholeAnchorIsUnique(source, a);
      } else {
        var (left, right) := Reach(source, a, maxFind);
        GrowthKeepsEdit(source, a, left, right);
        WideningSucceedsWithinCaps(source, Grown(source, a, left, right), maxFind, maxReplace);
      }
    }
  }

  method WidenAnchor(source: string, a: Anchor, maxFind: int, maxReplace: int) returns (r: Outcome<Anchor>)
    requires AnchorIn(source, a)
    ensures r == Widened(source, a, maxFind, maxReplace)
  {
    var anchor := a;
    while Count(source, anchor.find, 0) != 1
      invariant AnchorIn(source, anchor)
      invariant Widened(source, a, maxFind, maxReplace) == Widened(source, anchor, maxFind, maxReplace)
      decreases |source| - |anchor.find|
    {
      if |anchor.find| >= maxFind {
        return Rejected(Unresolvable);
      }
      var (left, right) := Reach(source, anchor, maxFind);
      if left <= 0 && right <= 0 {
        return Rejected(Unresolvable);
      }
      GrowthKeepsEdit(source, anchor, left, right);
      anchor := Grown(source, anchor, left, right);
      if |anchor.replace| > maxReplace {
        return Rejected(ReplacementTooLarge);
      }
    }
    return Ok(anchor);
  }

  /******* Compiling the edit of one located occurrence *******/

  lemma CutKeepsEdit(source: string, start: nat, find: string, replace: string, p: nat, s: nat)
    requires find != "" && OccursAt(source, find, start) && IsTrim(find, replace, p, s)
    ensures var a := Cut(start, find, replace, p, s);
            AnchorIn(source, a) && Applied(source, a) == Splice(source, start, |find|, replace)
  {
    if p + s < |find| { TrimKeepsEdit(source, start, find, replace, p, s); }
  }

  lemma TrimmedAnchorKeepsEdit(source: string, start: nat, find: string, replace: string)
    requires find != "" && OccursAt(source, find, start)
    ensures var a := TrimmedAnchor(start, find, replace);
            AnchorIn(source, a) && Applied(source, a) == Splice(source, start, |find|, replace)
  {
    var (p, s) := TrimOf(find, replace);
    CutKeepsEdit(source, start, find, replace, p, s);
  }

  // Trimming is skipped when the snippet is already unique and declares no function.
  function InitialAnchor(source: string, g: Guards, start: nat, find: string, replace: string): (a: Anchor)
    requires find != "" && OccursAt(source, find, start)
    ensures AnchorIn(source, a) && Applied(source, a) == Splice(source, start, |find|, replace)
  {
    TrimmedAnchorKeepsEdit(source, start, find, replace);
    if Count(source, find, 0) != 1 || g.declaresFunction(find)
    then TrimmedAnchor(start, find, replace)
    else Anchor(find, replace, start)
  }

  function Compiled(source: string, g: Guards, start: nat, find: string, replace: string,
                    maxFind: int, maxReplace: int): Outcome<Anchor>
    requires find != "" && OccursAt(source, find, start)
  {
    if g.IdentityEdit(find, replace) then Rejected(NoOp)
    else if g.partialFunction(find, replace) then Rejected(PartialFunction)
    else
      var a := InitialAnchor(source, g, start, find, replace);
      if g.IdentityEdit(a.find, a.replace) then Rejected(NoOp)
      else match Widened(source, a, maxFind, maxReplace)
        case Rejected(reason) => Rejected(reason)
        case Ok(b) => Admitted(source, g, start, find, replace, b, maxFind, maxReplace)
  }

  // The checks behind the widening loop.
  function Admitted(source: string, g: Guards, start: nat, find: string, replace: string,
                    b: Anchor, maxFind: int, maxReplace: int): Outcome<Anchor>
  {
    if |b.find| > maxFind || |b.replace| > maxReplace then Rejected(Oversized)
    else if g.partialFunction(b.find, b.replace) then Rejected(PartialFunction)
    else if g.removesLiveBinding(source, start, find, replace) then Rejected(RemovedLiveBinding)
    else if g.emptyDeletion(find, replace) then Rejected(EmptyDeletion)
    else Ok(b)
  }

  // b is an anchor that counts once and whose edit at its own position is `edited`.
  ghost predicate StandsFor(source: string, b: Anchor, edited: string) {
    AnchorIn(source, b) && Count(source, b.find, 0) == 1 && Applied(source, b) == edited
  }

  // A compiled anchor stands for the requested edit at the requested place, within
  // both caps.
  lemma CompiledAnchorKeepsEdit(source: string, g: Guards, start: nat, find: string, replace: string,
                                maxFind: int, maxReplace: int, b: Anchor)
    requires find != "" && OccursAt(source, find, start)
    requires Compiled(source, g, start, find, replace, maxFind, maxReplace) == Ok(b)
    ensures StandsFor(source, b, Splice(source, start, |find|, replace))
    ensures |b.find| <= maxFind && |b.replace| <= maxReplace && !g.IdentityEdit(find, replace)
  {
    var a := InitialAnchor(source, g, start, find, replace);
    WideningKeepsEdit(source, a, maxFind, maxReplace, b);
  }

  // Main result: applied as a first-occurrence replace, an anchor performs the edit
  // it stands for unless it overlaps an earlier copy of itself by a shift under
  // which its replacement does not repeat.
  lemma AnchorReplaceIsExact(source: string, b: Anchor, edited: string)
    requires StandsFor(source, b, edited)
    ensures 0 <= Find(source, b.find, 0) <= b.start < Find(source, b.find, 0) + |b.find|
    ensures ReplaceFirst(source, b.find, b.replace) == edited
            <==> RepeatsWithShift(b.find, b.replace, b.start - Find(source, b.find, 0))
    ensures Find(source, b.find, 0) == b.start ==> ReplaceFirst(source, b.find, b.replace) == edited
  {
    FirstReplaceHitsTarget(source, b.find, b.replace, b.start);
  }

  // So the first-occurrence replace used for Bloc edits gives the same text as the
  // direct splice used for registered patches exactly under that condition.
  lemma CompiledEditIsExact(source: string, g: Guards, start: nat, find: string, replace: string,
                            maxFind: int, maxReplace: int, b: Anchor)
    requires find != "" && OccursAt(source, find, start)
    requires Compiled(source, g, start, find, replace, maxFind, maxReplace) == Ok(b)
    ensures |b.find| <= maxFind && |b.replace| <= maxReplace
    ensures 0 <= Find(source, b.find, 0) <= b.start < Find(source, b.find, 0) + |b.find|
    ensures ReplaceFirst(source, b.find, b.replace) == Splice(source, start, |find|, replace)
            <==> RepeatsWithShift(b.find, b.replace, b.start - Find(source, b.find, 0))
  {
    CompiledAnchorKeepsEdit(source, g, start, find, replace, maxFind, maxReplace, b);
    AnchorReplaceIsExact(source, b, Splice(source, start, |find|, replace));
  }

  /******* Locating the occurrence *******/

  function OccurrencesFrom(s: string, sub: string, from: nat): seq<nat>
    requires sub != ""
    decreases |s| - from
  {
    var p := Find(s, sub, from);
    if p < 0 then [] else [p] + OccurrencesFrom(s, sub, p + |sub|)
  }

  // Positions of a snippet this wide, in order and apart.
  ghost predicate Spaced(found: seq<nat>, width: nat) {
    forall i, j :: 0 <= i < j < |found| ==> found[i] + width <= found[j]
  }

  // Occurrences in order and apart, such that every other one starts inside one of them.
  ghost predicate AllApart(s: string, sub: string, found: seq<nat>) {
    && Spaced(found, |sub|)
    && (forall p :: p in found ==> OccursAt(s, sub, p))
    && (forall q :: OccursAt(s, sub, q) ==> SourceWindows.InsideSome(found, |sub|, q))
  }

  lemma OneMoreFound(s: string, sub: string, cursor: nat, p: int, found: seq<nat>)
    requires sub != "" && p == Find(s, sub, cursor)
    ensures p < 0 ==> OccurrencesFrom(s, sub, cursor) == []
    ensures p >= 0 ==> found + OccurrencesFrom(s, sub, cursor) == (found + [p]) + OccurrencesFrom(s, sub, p + |sub|)
  {
    if p >= 0 {
      var rest := OccurrencesFrom(s, sub, p + |sub|);
      assert found + ([p] + rest) == (found + [p]) + rest;
    }
  }

  method Occurrences(s: string, sub: string) returns (found: seq<nat>)
    requires sub != ""
    ensures found == OccurrencesFrom(s, sub, 0)
    ensures AllApart(s, sub, found)
  {
    found := [];
    var cursor := 0;
    while true
      invariant found + OccurrencesFrom(s, sub, cursor) == OccurrencesFrom(s, sub, 0)
      decreases |s| - cursor
    {
      var local := Find(s, sub, cursor);
      OneMoreFound(s, sub, cursor, local, found);
      if local < 0 {
        break;
      }
      found := found + [local];
      cursor := local + |sub|;
    }
    OccurrencesAreAll(s, sub);
  }

  // Occurrences come in order and apart from each other.
  lemma {:induction false} OccurrencesAreApart(s: string, sub: string, from: nat, i: nat, j: nat)
    requires sub != "" && i < j < |OccurrencesFrom(s, sub, from)|
    ensures OccurrencesFrom(s, sub, from)[i] + |sub| <= OccurrencesFrom(s, sub, from)[j]
    decreases |s| - from
  {
    var p := Find(s, sub, from);
    var rest := OccurrencesFrom(s, sub, p + |sub|);
    if i > 0 {
      OccurrencesAreApart(s, sub, p + |sub|, i - 1, j - 1);
    } else {
      OccurrencesStart(s, sub, p + |sub|, j - 1);
      assert OccurrencesFrom(s, sub, from)[j] == rest[j - 1];
    }
  }

  lemma {:induction false} OccurrencesStart(s: string, sub: string, from: nat, k: nat)
    requires sub != "" && k < |OccurrencesFrom(s, sub, from)|
    ensures from <= OccurrencesFrom(s, sub, from)[k]
    decreases |s| - from
  {
    if k > 0 { OccurrencesStart(s, sub, Find(s, sub, from) + |sub|, k - 1); }
  }

  lemma OccurrencesAreSpaced(s: string, sub: string)
    requires sub != ""
    ensures Spaced(OccurrencesFrom(s, sub, 0), |sub|)
  {
    var found := OccurrencesFrom(s, sub, 0);
    forall i, j | 0 <= i < j < |found|
      ensures found[i] + |sub| <= found[j]
    {
      OccurrencesAreApart(s, sub, 0, i, j);
    }
  }

  lemma {:induction false} OccurrencesOccur(s: string, sub: string, from: nat, p: nat)
    requires sub != "" && p in OccurrencesFrom(s, sub, from)
    ensures OccursAt(s, sub, p)
    decreases |s| - from
  {
    FindIsLeftmost(s, sub, from);
    if p != Find(s, sub, from) { OccurrencesOccur(s, sub, Find(s, sub, from) + |sub|, p); }
  }

  lemma {:induction false} NoneIsMissed(s: string, sub: string, from: nat, q: nat)
    requires sub != "" && from <= q && OccursAt(s, sub, q)
    ensures SourceWindows.InsideSome(OccurrencesFrom(s, sub, from), |sub|, q)
    decreases |s| - from
  {
    FindIsLeftmost(s, sub, from);
    var p: nat := Find(s, sub, from);
    var found, rest := OccurrencesFrom(s, sub, from), OccurrencesFrom(s, sub, p + |sub|);
    if q < p + |sub| {
      assert found[0] == p;
    } else {
      NoneIsMissed(s, sub, p + |sub|, q);
      var i :| 0 <= i < |rest| && rest[i] <= q < rest[i] + |sub|;
      assert found[i + 1] == rest[i];
    }
  }

  lemma OccurrencesAreAll(s: string, sub: string)
    requires sub != ""
    ensures AllApart(s, sub, OccurrencesFrom(s, sub, 0))
  {
    OccurrencesAreSpaced(s, sub);
    forall p | p in OccurrencesFrom(s, sub, 0)
      ensures OccursAt(s, sub, p)
    {
      OccurrencesOccur(s, sub, 0, p);
    }
    forall q | OccursAt(s, sub, q)
      ensures SourceWindows.InsideSome(OccurrencesFrom(s, sub, 0), |sub|, q)
    {
      NoneIsMissed(s, sub, 0, q);
    }
  }

  // The count is that of the occurrences in order and apart.
  lemma {:induction false} CountIsOccurrences(s: string, sub: string, from: nat)
    requires sub != ""
    ensures Count(s, sub, from) == |OccurrencesFrom(s, sub, from)|
    decreases |s| - from
  {
    var p := Find(s, sub, from);
    if p >= 0 { CountIsOccurrences(s, sub, p + |sub|); }
    CountedAlike(s, sub, from, p);
  }

  lemma CountedAlike(s: string, sub: string, from: nat, p: int)
    requires sub != "" && p == Find(s, sub, from)
    requires p >= 0 ==> Count(s, sub, p + |sub|) == |OccurrencesFrom(s, sub, p + |sub|)|
    ensures Count(s, sub, from) == |OccurrencesFrom(s, sub, from)|
  {
  }

  datatype Rank = Rank(relation: nat, distance: nat) {
    predicate Before(other: Rank) {
      relation < other.relation || (relation == other.relation && distance < other.distance)
    }
  }

  // A focus offset of zero is read as "no focus" and replaced by the window's middle.
  function FocusOf(w: Window): nat {
    if w.focus != 0 then w.focus else |w.source| / 2
  }

  function FocusRank(w: Window, width: nat, position: int): Rank {
    var focus, end := FocusOf(w), position + width;
    if position <= focus < end then Rank(0, 0)
    else if position >= focus then Rank(1, position - focus)
    else Rank(2, Max(0, focus - end))
  }

  // The best rank of each position found so far.
  type Ranks = map<int, Rank>

  function Bettered(best: Ranks, absolute: int, rank: Rank): Ranks {
    if absolute !in best || rank.Before(best[absolute]) then best[absolute := rank] else best
  }

  function WindowRanks(best: Ranks, w: Window, width: nat, found: seq<nat>): Ranks {
    if found == [] then best
    else
      var last := found[|found| - 1];
      Bettered(WindowRanks(best, w, width, found[..|found| - 1]), w.offset + last, FocusRank(w, width, last))
  }

  // Every position the snippet is found at in some window, with its best rank by a window's focus.
  function BestRanks(windows: seq<Window>, find: string): Ranks
    requires find != ""
  {
    if windows == [] then map[]
    else
      var w := windows[|windows| - 1];
      WindowRanks(BestRanks(windows[..|windows| - 1], find), w, |find|, OccurrencesFrom(w.source, find, 0))
  }

  // Ranked before every other position.
  ghost predicate RanksFirst(best: Ranks, a: int) {
    a in best && forall b :: b in best && b != a ==> best[a].Before(best[b])
  }

  function KeysOf(order: seq<int>): set<int> {
    set a | a in order
  }

  method RankWindow(order0: seq<int>, best0: Ranks, w: Window, width: nat, found: seq<nat>)
    returns (order: seq<int>, best: Ranks)
    requires KeysOf(order0) == best0.Keys
    ensures best == WindowRanks(best0, w, width, found) && KeysOf(order) == best.Keys
  {
    order, best := order0, best0;
    for k := 0 to |found|
      invariant best == WindowRanks(best0, w, width, found[..k]) && KeysOf(order) == best.Keys
    {
      assert found[..k + 1][..k] == found[..k];
      var absolute, rank := w.offset + found[k], FocusRank(w, width, found[k]);
      if absolute !in best {
        assert forall a :: a in order + [absolute] <==> a in order || a == absolute;
        order := order + [absolute];
      }
      best := Bettered(best, absolute, rank);
    }
    assert found[..|found|] == found;
  }

  method RankCandidates(windows: seq<Window>, find: string) returns (order: seq<int>, best: Ranks)
    requires find != ""
    ensures best == BestRanks(windows, find) && KeysOf(order) == best.Keys
  {
    order, best := [], map[];
    for i := 0 to |windows|
      invariant best == BestRanks(windows[..i], find) && KeysOf(order) == best.Keys
    {
      var found := Occurrences(windows[i].source, find);
      assert windows[..i + 1][..i] == windows[..i];
      order, best := RankWindow(order, best, windows[i], |find|, found);
    }
    assert windows[..|windows|] == windows;
  }

  method ClosestOccurrence(order: seq<int>, best: Ranks) returns (r: Outcome<int>)
    requires KeysOf(order) == best.Keys
    ensures r.Ok? ==> RanksFirst(best, r.value)
    ensures r.Rejected? ==> forall a :: !RanksFirst(best, a)
    ensures r.Rejected? ==> r.reason == if order == [] then NotInAnyWindow else Ambiguous
  {
    if order == [] {
      return Rejected(NotInAnyWindow);
    }
    var pick, tied := order[0], false;
    assert pick in KeysOf(order);
    for i := 1 to |order|
      invariant pick in best
      invariant forall a :: a in order[..i] ==> a in best && !best[a].Before(best[pick])
      invariant tied <==> exists a :: a in order[..i] && a in best && a != pick && best[a] == best[pick]
    {
      var a := order[i];
      assert a in KeysOf(order) && order[..i + 1] == order[..i] + [a];
      if best[a].Before(best[pick]) {
        pick, tied := a, false;
      } else if best[a] == best[pick] && a != pick {
        tied := true;
      }
    }
    assert order[..|order|] == order;
    assert forall a :: a in best ==> a in KeysOf(order);
    return if tied then Rejected(Ambiguous) else Ok(pick);
  }

  lemma FirstIsUnique(best: Ranks, a: int)
    requires RanksFirst(best, a)
    ensures forall b :: RanksFirst(best, b) ==> a == b
  {
  }

  /******* The best rank in any window *******/

  // Some window shows the snippet at this position of the source, with this rank.
  ghost predicate ShownAt(w: Window, find: string, a: int, rank: Rank)
    requires find != ""
  {
    && a >= w.offset && a - w.offset in OccurrencesFrom(w.source, find, 0)
    && rank == FocusRank(w, |find|, a - w.offset)
  }

  ghost predicate AtBest(best: Ranks, a: int, rank: Rank) {
    a in best && !rank.Before(best[a])
  }

  lemma BetteringKeeps(best: Ranks, at: int, rank: Rank, a: int, other: Rank)
    requires AtBest(best, a, other) || (a == at && other == rank)
    ensures AtBest(Bettered(best, at, rank), a, other)
  {
  }

  lemma {:induction false} WindowKeepsBest(best: Ranks, w: Window, width: nat, found: seq<nat>, a: int, rank: Rank)
    requires AtBest(best, a, rank)
             || (a >= w.offset && a - w.offset in found && rank == FocusRank(w, width, a - w.offset))
    ensures AtBest(WindowRanks(best, w, width, found), a, rank)
  {
    if found != [] {
      var n := |found| - 1;
      var before := WindowRanks(best, w, width, found[..n]);
      assert found == found[..n] + [found[n]];
      if AtBest(best, a, rank) || a - w.offset in found[..n] { WindowKeepsBest(best, w, width, found[..n], a, rank); }
      BetteringKeeps(before, w.offset + found[n], FocusRank(w, width, found[n]), a, rank);
    }
  }

  lemma {:induction false} ShownIsRanked(windows: seq<Window>, find: string, j: nat, a: int, rank: Rank)
    requires find != "" && j < |windows| && ShownAt(windows[j], find, a, rank)
    ensures AtBest(BestRanks(windows, find), a, rank)
  {
    var n := |windows| - 1;
    if j < n { ShownIsRanked(windows[..n], find, j, a, rank); }
    WindowKeepsBest(BestRanks(windows[..n], find), windows[n], |find|, OccurrencesFrom(windows[n].source, find, 0), a,
                    rank);
  }

  ghost predicate HasRank(best: Ranks, a: int, rank: Rank) {
    a in best && best[a] == rank
  }

  ghost predicate FoundWith(w: Window, width: nat, found: seq<nat>, a: int, rank: Rank) {
    a >= w.offset && a - w.offset in found && rank == FocusRank(w, width, a - w.offset)
  }

  lemma BetteredFrom(best: Ranks, at: int, better: Rank, a: int, rank: Rank)
    requires HasRank(Bettered(best, at, better), a, rank)
    ensures HasRank(best, a, rank) || (a == at && rank == better)
  {
  }

  lemma FoundInMore(w: Window, width: nat, found: seq<nat>, n: nat, a: int, rank: Rank)
    requires n < |found|
    requires FoundWith(w, width, found[..n], a, rank)
             || (a == w.offset + found[n] && rank == FocusRank(w, width, found[n]))
    ensures FoundWith(w, width, found, a, rank)
  {
  }

  lemma {:induction false} RankedIsShown(best: Ranks, w: Window, width: nat, found: seq<nat>, a: int, rank: Rank)
    requires HasRank(WindowRanks(best, w, width, found), a, rank)
    ensures HasRank(best, a, rank) || FoundWith(w, width, found, a, rank)
  {
    if found != [] {
      var n := |found| - 1;
      var before := WindowRanks(best, w, width, found[..n]);
      BetteredFrom(before, w.offset + found[n], FocusRank(w, width, found[n]), a, rank);
      if HasRank(before, a, rank) { RankedIsShown(best, w, width, found[..n], a, rank); }
      if !HasRank(best, a, rank) { FoundInMore(w, width, found, n, a, rank); }
    }
  }

  lemma {:induction false} BestIsShown(windows: seq<Window>, find: string, a: int) returns (j: nat)
    requires find != "" && a in BestRanks(windows, find)
    ensures j < |windows| && ShownAt(windows[j], find, a, BestRanks(windows, find)[a])
  {
    var n := |windows| - 1;
    var before, w := BestRanks(windows[..n], find), windows[n];
    var rank := BestRanks(windows, find)[a];
    RankedIsShown(before, w, |find|, OccurrencesFrom(w.source, find, 0), a, rank);
    j := n;
    if !ShownAt(w, find, a, rank) {
      j := BestIsShown(windows[..n], find, a);
    }
  }

  // A position is ranked exactly when some window shows the snippet there, and its rank is one
  // it has in a window and none it has in any window comes before it.
  lemma RankIsBestOfAnyWindow(windows: seq<Window>, find: string, a: int)
    requires find != ""
    ensures var best := BestRanks(windows, find);
            && (a in best ==> exists w :: w in windows && ShownAt(w, find, a, best[a]))
            && (forall w, rank :: w in windows && ShownAt(w, find, a, rank) ==> AtBest(best, a, rank))
  {
    var best := BestRanks(windows, find);
    if a in best {
      var j := BestIsShown(windows, find, a);
      assert windows[j] in windows;
    }
    forall w, rank | w in windows && ShownAt(w, find, a, rank)
      ensures AtBest(best, a, rank)
    {
      var j :| 0 <= j < |windows| && windows[j] == w;
      ShownIsRanked(windows, find, j, a, rank);
    }
  }

  /******* Ranked first, and nearest *******/

  // No position is nearer to its focus.
  ghost predicate Nearest(best: Ranks, a: int) {
    a in best && forall b :: b in best ==> best[a].distance <= best[b].distance
  }

  // Every other position is farther from its focus.
  ghost predicate NearestAlone(best: Ranks, a: int) {
    a in best && forall b :: b in best && b != a ==> best[a].distance < best[b].distance
  }

  // Around the focus there is no distance left, and in front of or behind it are the only other sides.
  ghost predicate IsWell(rank: Rank) {
    && rank.relation <= 2
    && (rank.relation == 0 ==> rank.distance == 0)
    && (rank.relation == 1 ==> rank.distance > 0)
  }

  ghost predicate WellRanked(best: Ranks) {
    forall a :: a in best ==> IsWell(best[a])
  }

  // One in front of its focus is nearer, or as near, than all the others.
  ghost predicate IsNearerFront(best: Ranks, b: int, strictly: bool) {
    && b in best && best[b].relation == 2
    && forall a :: a in best && best[a].relation < 2 ==>
         if strictly then best[b].distance < best[a].distance else best[b].distance <= best[a].distance
  }

  // Around or behind the focus there is one, yet one in front of its own is nearer, or as near.
  ghost predicate FrontIsNearer(best: Ranks, strictly: bool) {
    (exists a :: a in best && best[a].relation < 2) && exists b :: IsNearerFront(best, b, strictly)
  }

  // What the rank promises of distance: the first position is the nearest unless one in front of
  // its focus is nearer than all around or behind theirs; and it is the only nearest unless
  // one in front is as near.
  lemma FirstIsNearestExactly(best: Ranks, a: int)
    requires WellRanked(best) && RanksFirst(best, a)
    ensures Nearest(best, a) <==> !FrontIsNearer(best, true)
    ensures NearestAlone(best, a) <==> !FrontIsNearer(best, false)
  {
    assert forall b :: b in best && b != a ==> best[a].Before(best[b]);
    if !NearestAlone(best, a) {
      var b :| b in best && b != a && best[b].distance <= best[a].distance;
      assert IsNearerFront(best, b, false);
    }
    if !Nearest(best, a) {
      var b :| b in best && best[b].distance < best[a].distance;
      assert IsNearerFront(best, b, true);
    }
  }

  lemma {:induction false} WindowRanksAreWell(best: Ranks, w: Window, width: nat, found: seq<nat>)
    requires width > 0 && WellRanked(best)
    ensures WellRanked(WindowRanks(best, w, width, found))
  {
    if found != [] { WindowRanksAreWell(best, w, width, found[..|found| - 1]); }
  }

  lemma {:induction false} BestRanksAreWell(windows: seq<Window>, find: string)
    requires find != ""
    ensures WellRanked(BestRanks(windows, find))
  {
    if windows != [] {
      var w := windows[|windows| - 1];
      BestRanksAreWell(windows[..|windows| - 1], find);
      WindowRanksAreWell(BestRanks(windows[..|windows| - 1], find), w, |find|, OccurrencesFrom(w.source, find, 0));
    }
  }

  ghost predicate RankedAt(best: Ranks, w: Window, width: nat, p: nat) {
    w.offset + p in best && best[w.offset + p] == FocusRank(w, width, p)
  }

  ghost predicate FoundAt(w: Window, found: seq<nat>, a: int) {
    a >= w.offset && a - w.offset in found
  }

  // The ranks of one window: those of its occurrences and no others.
  ghost predicate RanksOf(best: Ranks, w: Window, width: nat, found: seq<nat>) {
    && WellRanked(best)
    && (forall p: nat {:trigger RankedAt(best, w, width, p)} :: p in found ==> RankedAt(best, w, width, p))
    && (forall a {:trigger FoundAt(w, found, a)} :: a in best ==> FoundAt(w, found, a))
  }

  lemma OneMoreRanked(best: Ranks, w: Window, width: nat, front: seq<nat>, last: nat)
    requires width > 0 && RanksOf(best, w, width, front) && last !in front
    ensures w.offset + last !in best
    ensures RanksOf(best[w.offset + last := FocusRank(w, width, last)], w, width, front + [last])
  {
    var at := w.offset + last;
    assert at in best ==> FoundAt(w, front, at);
    var after := best[at := FocusRank(w, width, last)];
    forall p: nat | p in front + [last]
      ensures RankedAt(after, w, width, p)
    {
      if p != last { assert RankedAt(best, w, width, p); }
    }
    forall a | a in after
      ensures FoundAt(w, front + [last], a)
    {
      if a != at { assert FoundAt(w, front, a); }
    }
  }

  lemma {:induction false} OneWindowRanks(w: Window, width: nat, found: seq<nat>)
    requires width > 0 && Spaced(found, width)
    ensures RanksOf(WindowRanks(map[], w, width, found), w, width, found)
  {
    if found != [] {
      var n := |found| - 1;
      OneWindowRanks(w, width, found[..n]);
      assert found == found[..n] + [found[n]];
      OneMoreRanked(WindowRanks(map[], w, width, found[..n]), w, width, found[..n], found[n]);
    }
  }

  lemma WindowRanksAre(w: Window, find: string)
    requires find != ""
    ensures RanksOf(BestRanks([w], find), w, |find|, OccurrencesFrom(w.source, find, 0))
  {
    OccurrencesAreSpaced(w.source, find);
    OneWindowRanks(w, |find|, OccurrencesFrom(w.source, find, 0));
    assert [w][..0] == [];
  }

  lemma RanksDiffer(w: Window, width: nat, p: nat, q: nat)
    requires width > 0 && p + width <= q
    ensures FocusRank(w, width, p).Before(FocusRank(w, width, q))
            || FocusRank(w, width, q).Before(FocusRank(w, width, p))
    ensures FocusRank(w, width, p).distance == FocusRank(w, width, q).distance
            ==> FocusRank(w, width, p).relation == 2 && FocusRank(w, width, q).relation < 2
  {
  }

  lemma PositionsApart(found: seq<nat>, width: nat, p: nat, q: nat)
    requires width > 0 && Spaced(found, width) && p in found && q in found && p < q
    ensures p + width <= q
  {
    var i :| 0 <= i < |found| && found[i] == p;
    var j :| 0 <= j < |found| && found[j] == q;
    if j < i { assert found[j] + width <= found[i]; }
  }

  // Which side an occurrence is on, and how far.
  lemma SideOf(w: Window, width: nat, p: nat)
    requires width > 0
    ensures FocusRank(w, width, p).relation == 2 <==> p + width <= FocusOf(w)
    ensures p + width <= FocusOf(w) ==> FocusRank(w, width, p).distance == FocusOf(w) - (p + width)
    ensures FocusRank(w, width, p).relation == 1 <==> p > FocusOf(w)
    ensures p > FocusOf(w) ==> FocusRank(w, width, p).distance == p - FocusOf(w)
  {
  }

  // How many of the positions, in order, end in front of the focus.
  function InFront(found: seq<nat>, width: nat, focus: nat): (k: nat)
    ensures k <= |found|
  {
    if found == [] || found[0] + width > focus then 0 else 1 + InFront(found[1..], width, focus)
  }

  // The focus has neighbours on both sides, and the one that ends in front of it is nearer, or
  // as near, than the one around or behind it.
  predicate FrontNeighbourIsNearer(found: seq<nat>, width: nat, focus: nat, strictly: bool) {
    var k := InFront(found, width, focus);
    && 0 < k < |found|
    && var gap, next := focus - (found[k - 1] + width), if found[k] <= focus then 0 else found[k] - focus;
       if strictly then gap < next else gap <= next
  }

  lemma TailIsSpaced(found: seq<nat>, width: nat)
    requires found != [] && Spaced(found, width)
    ensures Spaced(found[1..], width)
  {
  }

  lemma {:induction false} InFrontSplits(found: seq<nat>, width: nat, focus: nat, i: nat)
    requires width > 0 && Spaced(found, width) && i < |found|
    ensures found[i] + width <= focus <==> i < InFront(found, width, focus)
  {
    if i > 0 {
      assert found[0] + width <= found[i];
      TailIsSpaced(found, width);
      InFrontSplits(found[1..], width, focus, i - 1);
    }
  }

  lemma IndexOf(found: seq<nat>, p: nat) returns (i: nat)
    requires p in found
    ensures i < |found| && found[i] == p
  {
    i :| 0 <= i < |found| && found[i] == p;
  }

  // In front of the focus the last position is the nearest, around and behind it the first.
  lemma NeighboursAreNearest(w: Window, width: nat, found: seq<nat>, p: nat)
    requires width > 0 && Spaced(found, width) && p in found
    ensures var k := InFront(found, width, FocusOf(w));
            && (FocusRank(w, width, p).relation == 2 ==>
                  0 < k && FocusRank(w, width, found[k - 1]).distance <= FocusRank(w, width, p).distance)
            && (FocusRank(w, width, p).relation < 2 ==>
                  k < |found| && FocusRank(w, width, found[k]).distance <= FocusRank(w, width, p).distance)
  {
    var k := InFront(found, width, FocusOf(w));
    var i := IndexOf(found, p);
    InFrontSplits(found, width, FocusOf(w), i);
    SideOf(w, width, p);
    if i < k {
      InFrontSplits(found, width, FocusOf(w), k - 1);
      assert i < k - 1 ==> found[i] + width <= found[k - 1];
    } else {
      assert k < i ==> found[k] + width <= found[i];
    }
  }

  lemma NeighbourRanks(w: Window, width: nat, found: seq<nat>)
    requires width > 0 && Spaced(found, width)
    ensures var focus := FocusOf(w);
            var k := InFront(found, width, focus);
            && (0 < k ==> FocusRank(w, width, found[k - 1]).relation == 2)
            && (0 < k ==> FocusRank(w, width, found[k - 1]).distance == focus - (found[k - 1] + width))
            && (k < |found| ==> FocusRank(w, width, found[k]).relation < 2)
            && (k < |found| ==>
                  FocusRank(w, width, found[k]).distance == if found[k] <= focus then 0 else found[k] - focus)
  {
    var focus := FocusOf(w);
    var k := InFront(found, width, focus);
    if 0 < k {
      InFrontSplits(found, width, focus, k - 1);
      SideOf(w, width, found[k - 1]);
    }
    if k < |found| {
      InFrontSplits(found, width, focus, k);
      SideOf(w, width, found[k]);
    }
  }

  // A ranked position is a found one, no nearer than the neighbour on its side.
  lemma RankedIsNoNearer(best: Ranks, w: Window, width: nat, found: seq<nat>, a: int)
    requires width > 0 && RanksOf(best, w, width, found) && Spaced(found, width) && a in best
    ensures var k := InFront(found, width, FocusOf(w));
            && (best[a].relation == 2 ==> 0 < k && FocusRank(w, width, found[k - 1]).distance <= best[a].distance)
            && (best[a].relation < 2 ==> k < |found| && FocusRank(w, width, found[k]).distance <= best[a].distance)
  {
    assert FoundAt(w, found, a);
    var p: nat := a - w.offset;
    assert RankedAt(best, w, width, p);
    NeighboursAreNearest(w, width, found, p);
  }

  lemma NeighbourIsRanked(best: Ranks, w: Window, width: nat, found: seq<nat>, i: nat) returns (a: int)
    requires width > 0 && RanksOf(best, w, width, found) && i < |found|
    ensures a in best && best[a] == FocusRank(w, width, found[i])
  {
    a := w.offset + found[i];
    assert RankedAt(best, w, width, found[i]);
  }

  lemma FrontIsNeighbour(best: Ranks, w: Window, width: nat, found: seq<nat>, strictly: bool)
    requires width > 0 && RanksOf(best, w, width, found) && Spaced(found, width)
    ensures FrontIsNearer(best, strictly) <==> FrontNeighbourIsNearer(found, width, FocusOf(w), strictly)
  {
    var k := InFront(found, width, FocusOf(w));
    NeighbourRanks(w, width, found);
    if FrontIsNearer(best, strictly) {
      var a :| a in best && best[a].relation < 2;
      var b :| IsNearerFront(best, b, strictly);
      RankedIsNoNearer(best, w, width, found, a);
      RankedIsNoNearer(best, w, width, found, b);
      var next := NeighbourIsRanked(best, w, width, found, k);
    }
    if FrontNeighbourIsNearer(found, width, FocusOf(w), strictly) {
      var a := NeighbourIsRanked(best, w, width, found, k);
      var b := NeighbourIsRanked(best, w, width, found, k - 1);
      forall c | c in best && best[c].relation < 2
        ensures best[a].distance <= best[c].distance
      {
        RankedIsNoNearer(best, w, width, found, c);
      }
      assert IsNearerFront(best, b, strictly);
    }
  }

  // Main result on the choice inside a window, over the positions alone: the chosen occurrence
  // is the nearest to the focus unless, of the two neighbours of the focus, the one in front is
  // nearer; it is the only nearest unless that one is as near.
  lemma ChosenIsNearestExactly(w: Window, find: string, best: Ranks, found: seq<nat>, at: int)
    requires find != "" && best == BestRanks([w], find) && found == OccurrencesFrom(w.source, find, 0)
    requires RanksFirst(best, at)
    ensures Nearest(best, at) <==> !FrontNeighbourIsNearer(found, |find|, FocusOf(w), true)
    ensures NearestAlone(best, at) <==> !FrontNeighbourIsNearer(found, |find|, FocusOf(w), false)
  {
    WindowRanksAre(w, find);
    OccurrencesAreSpaced(w.source, find);
    ChosenAmongRanks(best, w, |find|, found, at);
  }

  lemma ChosenAmongRanks(best: Ranks, w: Window, width: nat, found: seq<nat>, at: int)
    requires width > 0 && RanksOf(best, w, width, found) && Spaced(found, width) && RanksFirst(best, at)
    ensures Nearest(best, at) <==> !FrontNeighbourIsNearer(found, width, FocusOf(w), true)
    ensures NearestAlone(best, at) <==> !FrontNeighbourIsNearer(found, width, FocusOf(w), false)
  {
    FrontIsNeighbour(best, w, width, found, true);
    FrontIsNeighbour(best, w, width, found, false);
    FirstIsNearestExactly(best, at);
  }

  // A tie inside a window is never refused: of two nearest occurrences the later one is chosen.
  lemma TieGoesToTheLater(w: Window, find: string, best: Ranks, p: nat, q: nat, a: int, b: int)
    requires find != "" && p < q && best == BestRanks([w], find) && a == w.offset + p && b == w.offset + q
    requires p in OccurrencesFrom(w.source, find, 0) && q in OccurrencesFrom(w.source, find, 0)
    requires Nearest(best, a) && Nearest(best, b)
    ensures RanksFirst(best, b)
  {
    WindowRanksAre(w, find);
    OccurrencesAreSpaced(w.source, find);
    LaterIsFirst(best, w, |find|, OccurrencesFrom(w.source, find, 0), p, q, a, b);
  }

  lemma LaterIsFirst(best: Ranks, w: Window, width: nat, found: seq<nat>, p: nat, q: nat, a: int, b: int)
    requires width > 0 && RanksOf(best, w, width, found) && Spaced(found, width)
    requires p in found && q in found && p < q && a == w.offset + p && b == w.offset + q
    requires Nearest(best, a) && Nearest(best, b)
    ensures RanksFirst(best, b)
  {
    PositionsApart(found, width, p, q);
    assert RankedAt(best, w, width, p) && RankedAt(best, w, width, q);
    RanksDiffer(w, width, p, q);
    forall c | c in best && c != b
      ensures best[b].Before(best[c])
    {
      assert FoundAt(w, found, c);
      var r: nat := c - w.offset;
      assert RankedAt(best, w, width, r);
      LaterNearestWins(w, width, found, q, r);
    }
  }

  lemma LaterNearestWins(w: Window, width: nat, found: seq<nat>, q: nat, r: nat)
    requires width > 0 && Spaced(found, width) && q in found && r in found && r != q
    requires FocusRank(w, width, q).relation < 2 && FocusRank(w, width, q).distance <= FocusRank(w, width, r).distance
    ensures FocusRank(w, width, q).Before(FocusRank(w, width, r))
  {
    if r < q {
      PositionsApart(found, width, r, q);
      RanksDiffer(w, width, r, q);
    } else {
      PositionsApart(found, width, q, r);
      RanksDiffer(w, width, q, r);
    }
  }

  // Ranked before all other occurrences.
  ghost predicate FirstAmong(w: Window, width: nat, found: seq<nat>, c: nat) {
    c in found && forall p: nat :: p in found && p != c ==> FocusRank(w, width, c).Before(FocusRank(w, width, p))
  }

  lemma FirstOfOneMore(w: Window, width: nat, front: seq<nat>, last: nat, c: nat) returns (first: nat)
    requires width > 0 && Spaced(front + [last], width) && FirstAmong(w, width, front, c)
    ensures FirstAmong(w, width, front + [last], first)
  {
    var found := front + [last];
    assert found[|front|] == last;
    var i :| 0 <= i < |front| && front[i] == c;
    assert found[i] == c && c + width <= last;
    RanksDiffer(w, width, c, last);
    assert forall p: nat :: p in found ==> p in front || p == last;
    first := if FocusRank(w, width, c).Before(FocusRank(w, width, last)) then c else last;
  }

  lemma FrontIsSpaced(found: seq<nat>, width: nat, n: nat)
    requires Spaced(found, width) && n <= |found|
    ensures Spaced(found[..n], width)
  {
  }

  // In a window that has the snippet there always is a first rank: its ambiguity exit is dead.
  lemma {:induction false} SomeRankIsFirst(w: Window, width: nat, found: seq<nat>) returns (c: nat)
    requires width > 0 && found != [] && Spaced(found, width)
    ensures FirstAmong(w, width, found, c)
  {
    var n := |found| - 1;
    if n == 0 {
      c := found[0];
    } else {
      FrontIsSpaced(found, width, n);
      c := SomeRankIsFirst(w, width, found[..n]);
      assert found == found[..n] + [found[n]];
      c := FirstOfOneMore(w, width, found[..n], found[n], c);
    }
  }

  lemma OneWindowIsNeverAmbiguous(w: Window, find: string) returns (c: nat)
    requires find != "" && OccurrencesFrom(w.source, find, 0) != []
    ensures RanksFirst(BestRanks([w], find), w.offset + c)
  {
    var best, found := BestRanks([w], find), OccurrencesFrom(w.source, find, 0);
    WindowRanksAre(w, find);
    OccurrencesAreSpaced(w.source, find);
    c := SomeRankIsFirst(w, |find|, found);
    assert RankedAt(best, w, |find|, c);
    forall b | b in best && b != w.offset + c
      ensures best[w.offset + c].Before(best[b])
    {
      assert FoundAt(w, found, b);
      assert RankedAt(best, w, |find|, b - w.offset);
    }
  }

  // Where an edit may start: at the unit's offset, at the occurrence ranked
  // first by the window's focus (looking into every window when the named one has none), or at
  // the only place the snippet counts.
  ghost predicate StartsAt(source: string, windows: seq<Window>, windowId: string, hint: Option<int>,
                           find: string, start: int)
    requires find != ""
  {
    && OccursAt(source, find, start)
    && match hint
       case Some(h) => start == h
       case None =>
         if windowId == "" then Count(source, find, 0) == 1 && start == Find(source, find, 0)
         else exists i: nat ::
             FirstWithId(windows, windowId, i) && RanksFirst(BestRanks(Searched(windows, i, find), find), start)
  }

  // A named window that lacks the snippet is replaced by all of them.
  function Searched(windows: seq<Window>, i: nat, find: string): seq<Window>
    requires i < |windows| && find != ""
  {
    if OccurrencesFrom(windows[i].source, find, 0) != [] then [windows[i]] else windows
  }

  // The named window, if there is one, lacks the snippet.
  ghost predicate NoWindowHas(windows: seq<Window>, windowId: string, find: string)
    requires find != ""
  {
    forall i: nat :: FirstWithId(windows, windowId, i) ==> OccurrencesFrom(windows[i].source, find, 0) == []
  }

  ghost predicate FirstWithId(windows: seq<Window>, id: string, i: nat) {
    i < |windows| && windows[i].id == id && forall j :: 0 <= j < i ==> windows[j].id != id
  }

  // Every window is a slice of the text at its own offset.
  ghost predicate SlicesOf(windows: seq<Window>, text: string) {
    forall w :: w in windows ==> w.offset <= w.end <= |text| && w.source == text[w.offset..w.end]
  }

  // Windows that are slices of the text rank only positions at which the snippet occurs in it.
  lemma RankedOccurs(text: string, windows: seq<Window>, find: string, a: int)
    requires find != "" && SlicesOf(windows, text) && a in BestRanks(windows, find)
    ensures OccursAt(text, find, a)
  {
    var j := BestIsShown(windows, find, a);
    assert windows[j] in windows;
    ShownOccurs(text, windows[j], find, a, BestRanks(windows, find)[a]);
  }

  lemma ShownOccurs(text: string, w: Window, find: string, a: int, rank: Rank)
    requires find != "" && w.offset <= w.end <= |text| && w.source == text[w.offset..w.end] && ShownAt(w, find, a, rank)
    ensures OccursAt(text, find, a)
  {
    var p: nat := a - w.offset;
    OccurrencesOccur(w.source, find, 0, p);
    SliceOfSlice(text, w.offset, w.end, p, p + |find|);
  }

  // Of the windows the selector yields every first rank is a start: the drift error behind a
  // window search is dead, and a named window that has the snippet always gives one.
  lemma SelectedWindowsNeverDrift(source: SourceWindows.Source, keywords: seq<SourceWindows.Keyword>, maxChars: nat,
                                  maxWindows: nat, windowId: string, find: string, i: nat, start: int)
    requires find != "" && windowId != ""
    requires FirstWithId(SourceWindows.Windows(source, keywords, maxChars, maxWindows), windowId, i)
    ensures var windows := SourceWindows.Windows(source, keywords, maxChars, maxWindows);
            && SlicesOf(windows, source.text)
            && (StartsAt(source.text, windows, windowId, None, find, start)
                <==> RanksFirst(BestRanks(Searched(windows, i, find), find), start))
  {
    var windows := SourceWindows.Windows(source, keywords, maxChars, maxWindows);
    SourceWindows.WindowsAreExact(source, keywords, maxChars, maxWindows);
    assert forall j: nat :: FirstWithId(windows, windowId, j) ==> j == i;
    if RanksFirst(BestRanks(Searched(windows, i, find), find), start) {
      RankedOccurs(source.text, Searched(windows, i, find), find, start);
    }
  }

  // No window shows the snippet.
  ghost predicate NowhereIn(windows: seq<Window>, find: string)
    requires find != ""
  {
    forall w :: w in windows ==> OccurrencesFrom(w.source, find, 0) == []
  }

  lemma NothingRanked(windows: seq<Window>, find: string)
    requires find != "" && BestRanks(windows, find).Keys == {}
    ensures NowhereIn(windows, find)
  {
    forall w | w in windows
      ensures OccurrencesFrom(w.source, find, 0) == []
    {
      var found := OccurrencesFrom(w.source, find, 0);
      if found != [] {
        var j :| 0 <= j < |windows| && windows[j] == w;
        var a := w.offset + found[0];
        assert a - w.offset in found;
        ShownIsRanked(windows, find, j, a, FocusRank(w, |find|, found[0]));
      }
    }
  }

  // The first rank of the named window, or of all windows when it lacks the snippet.
  method ClosestInWindows(windows: seq<Window>, i: nat, find: string) returns (r: Outcome<int>)
    requires find != "" && i < |windows|
    ensures r.Ok? ==> RanksFirst(BestRanks(Searched(windows, i, find), find), r.value)
    ensures r.Rejected? ==> forall a :: !RanksFirst(BestRanks(Searched(windows, i, find), find), a)
    ensures OccurrencesFrom(windows[i].source, find, 0) != [] ==> r.Ok?
    ensures r.Rejected? ==> r.reason == NotInAnyWindow || r.reason == Ambiguous
    ensures r == Rejected(NotInAnyWindow) ==> NowhereIn(windows, find)
  {
    var local := Occurrences(windows[i].source, find);
    var searched := if local != [] then [windows[i]] else windows;
    var order, best := RankCandidates(searched, find);
    r := ClosestOccurrence(order, best);
    if local != [] {
      var c := OneWindowIsNeverAmbiguous(windows[i], find);
    } else if order == [] {
      NothingRanked(windows, find);
    }
  }

  // What each reason says of the location asked for.
  ghost predicate LocationReason(source: string, windows: seq<Window>, windowId: string, hint: Option<int>,
                                 find: string, reason: Reason)
    requires find != ""
  {
    match reason
    case NotUnique => hint.None? && windowId == "" && Count(source, find, 0) != 1
    case UnknownWindow => hint.None? && windowId != "" && forall w :: w in windows ==> w.id != windowId
    case NotInAnyWindow =>
      hint.None? && windowId != "" && NowhereIn(windows, find)
    case Ambiguous => hint.None? && windowId != "" && NoWindowHas(windows, windowId, find)
    case Drifted =>
      if hint.Some? then !OccursAt(source, find, hint.value) else windowId != "" && !SlicesOf(windows, source)
    case _ => false
  }

  method LocateEdit(source: string, windows: seq<Window>, windowId: string, hint: Option<int>, find: string)
    returns (r: Outcome<int>)
    requires find != ""
    ensures r.Ok? ==> StartsAt(source, windows, windowId, hint, find, r.value)
    ensures r.Rejected? ==> forall start :: !StartsAt(source, windows, windowId, hint, find, start)
    ensures r == Rejected(Ambiguous) ==> hint.None? && NoWindowHas(windows, windowId, find)
    ensures r.Rejected? ==> LocationReason(source, windows, windowId, hint, find, r.reason)
    ensures hint.None? && SlicesOf(windows, source) ==> r != Rejected(Drifted)
    ensures hint.None? && SlicesOf(windows, source) && windowId != "" && !NoWindowHas(windows, windowId, find) ==> r.Ok?
  {
    if hint.Some? {
      var h := hint.value;
      if h < 0 || h + |find| > |source| || source[h..h + |find|] != find {
        return Rejected(Drifted);
      }
      return Ok(h);
    }
    if windowId == "" {
      if Count(source, find, 0) != 1 {
        return Rejected(NotUnique);
      }
      FindIsLeftmost(source, find, 0);
      return Ok(Find(source, find, 0));
    }
    var i := 0;
    while i < |windows| && windows[i].id != windowId
      invariant i <= |windows| && forall j :: 0 <= j < i ==> windows[j].id != windowId
    {
      i := i + 1;
    }
    if i == |windows| {
      return Rejected(UnknownWindow);
    }
    assert FirstWithId(windows, windowId, i);
    assert forall j: nat :: FirstWithId(windows, windowId, j) ==> j == i;
    r := ClosestInWindows(windows, i, find);
    if r.Ok? {
      var at := r.value;
      if at < 0 || at + |find| > |source| || source[at..at + |find|] != find {
        FirstIsUnique(BestRanks(Searched(windows, i, find), find), at);
        if SlicesOf(windows, source) { RankedOccurs(source, Searched(windows, i, find), find, at); }
        r := Rejected(Drifted);
      }
    }
  }

  // What LocateEdit promises of distance, over the windows it searched.
  lemma LocatedIsNearestExactly(source: string, windows: seq<Window>, windowId: string, find: string, start: int,
                                i: nat)
    requires find != "" && windowId != "" && FirstWithId(windows, windowId, i)
    requires StartsAt(source, windows, windowId, None, find, start)
    ensures var best := BestRanks(Searched(windows, i, find), find);
            && start in best
            && (Nearest(best, start) <==> !FrontIsNearer(best, true))
            && (NearestAlone(best, start) <==> !FrontIsNearer(best, false))
  {
    var best := BestRanks(Searched(windows, i, find), find);
    assert forall j: nat :: FirstWithId(windows, windowId, j) ==> j == i;
    BestRanksAreWell(Searched(windows, i, find), find);
    FirstIsNearestExactly(best, start);
  }

  /******* Windows that break the promise of the nearest *******/

  // The first window and its ranks, for a text this short and no listed failure.
  lemma RanksOfWhole(text: string, focus: nat, found: seq<nat>)
    requires text != "" && text[0] != ' ' && |text| <= 2000
    requires SourceWindows.FocusPosition(Plainly(text), SourceWindows.DEFAULT_KEYWORDS).0 == focus
    requires found == OccurrencesFrom(text, "ab", 0)
    ensures var windows := SourceWindows.Windows(Plainly(text), SourceWindows.DEFAULT_KEYWORDS, 2000, 2);
            && |windows| == 1 && windows[0].id == "w1" && windows[0].offset == 0 && windows[0].focus == focus
            && windows[0].source == text
            && RanksOf(BestRanks(windows, "ab"), windows[0], 2, found)
            && SlicesOf(windows, text) && FirstWithId(windows, "w1", 0)
            && (found != [] ==> Searched(windows, 0, "ab") == windows)
  {
    var windows := SourceWindows.Windows(Plainly(text), SourceWindows.DEFAULT_KEYWORDS, 2000, 2);
    assert !SourceWindows.Blank(Plainly(text));
    assert windows == [windows[0]];
    WindowRanksAre(windows[0], "ab");
    assert text[0..|text|] == text;
  }

  function Plainly(text: string): SourceWindows.Source {
    SourceWindows.Source(text, text, c => c == ' ')
  }

  // In a window the selector yields, the occurrence right in front of the focus loses to one
  // ten characters behind it.
  lemma FocusRankIgnoresDistance()
    ensures var text := "ab;source....ab";
            var windows := SourceWindows.Windows(Plainly(text), SourceWindows.DEFAULT_KEYWORDS, 2000, 2);
            var best := BestRanks(windows, "ab");
            && RanksFirst(best, 13) && !Nearest(best, 13) && Nearest(best, 0)
            && StartsAt(text, windows, "w1", None, "ab", 13)
  {
    var text := "ab;source....ab";
    TwoInFrontAndBehind(text);
    FocusAtSource(text);
    RanksOfWhole(text, 3, [0, 13]);
    var windows := SourceWindows.Windows(Plainly(text), SourceWindows.DEFAULT_KEYWORDS, 2000, 2);
    TwoRanks(BestRanks(windows, "ab"), windows[0], 0, 13);
    RankedOccurs(text, windows, "ab", 13);
  }

  // In another one two occurrences are as near, and the later one is taken without an error.
  lemma TieIsNotRefused()
    ensures var text := "abx...ab";
            var windows := SourceWindows.Windows(Plainly(text), SourceWindows.DEFAULT_KEYWORDS, 2000, 2);
            var best := BestRanks(windows, "ab");
            && Nearest(best, 0) && Nearest(best, 6) && RanksFirst(best, 6)
            && StartsAt(text, windows, "w1", None, "ab", 6)
  {
    var text := "abx...ab";
    TwoAtEitherSide(text);
    FocusInTheMiddle(text);
    RanksOfWhole(text, 4, [0, 6]);
    var windows := SourceWindows.Windows(Plainly(text), SourceWindows.DEFAULT_KEYWORDS, 2000, 2);
    TwoRanks(BestRanks(windows, "ab"), windows[0], 0, 6);
    RankedOccurs(text, windows, "ab", 6);
  }

  // The ranks of two positions, the only ones.
  lemma TwoRanks(best: Ranks, w: Window, p: nat, q: nat)
    requires w.offset == 0 && RanksOf(best, w, 2, [p, q])
    ensures p in best && q in best && best[p] == FocusRank(w, 2, p) && best[q] == FocusRank(w, 2, q)
    ensures forall a :: a in best ==> a == p || a == q
  {
    assert p in [p, q] && q in [p, q];
    assert RankedAt(best, w, 2, p) && RankedAt(best, w, 2, q);
    forall a | a in best
      ensures a == p || a == q
    {
      assert FoundAt(w, [p, q], a);
    }
  }

  lemma TwoInFrontAndBehind(s: string)
    requires s == "ab;source....ab"
    ensures OccurrencesFrom(s, "ab", 0) == [0, 13]
  {
    NextOccurrence(s, 0, 0);
    NextOccurrence(s, 2, 13);
    assert OccurrencesFrom(s, "ab", 15) == [];
  }

  lemma FocusAtSource(s: string)
    requires s == "ab;source....ab"
    ensures SourceWindows.FocusPosition(Plainly(s), SourceWindows.DEFAULT_KEYWORDS).0 == 3
  {
    StartsOnlySource(s);
    SourceWindows.DefaultFocus(Plainly(s));
    SourceHit(s);
    assert SourceWindows.Chosen(Plainly(s), SourceWindows.Plain("source")) == 3;
  }

  lemma StartsOnlySource(s: string)
    requires s == "ab;source....ab"
    ensures SourceWindows.NoOtherStarts(s)
  {
  }

  lemma StartsNothing(s: string)
    requires s == "abx...ab"
    ensures SourceWindows.NoOtherStarts(s) && SourceWindows.NeverStarts(s, "source")
  {
  }

  lemma SourceIsAtThree(s: string)
    requires s == "ab;source....ab"
    ensures forall i :: OccursAt(s, "source", i) ==> i == 3
  {
    forall i | OccursAt(s, "source", i)
      ensures i == 3
    {
      assert s[i..i + 6][0] == s[i] == 's';
    }
  }

  lemma SourceHit(s: string)
    requires s == "ab;source....ab"
    ensures SourceWindows.Positions(Plainly(s), SourceWindows.Plain("source")) == [3]
  {
    assert s[3..9] == "source";
    assert OccursAt(s, "source", 3);
    FindIsLeftmost(s, "source", 0);
    FindIsLeftmost(s, "source", 9);
    SourceIsAtThree(s);
    assert Find(s, "source", 0) == 3 && Find(s, "source", 9) == -1;
    assert SourceWindows.Hits(s, "source", 0, []) == SourceWindows.Hits(s, "source", 9, [3]);
  }

  // The next pair "ab" is at the first `a` from here on.
  lemma NextOccurrence(s: string, from: nat, at: nat)
    requires from <= at && at + 2 <= |s| && s[at] == 'a' && s[at + 1] == 'b'
    requires forall i :: from <= i < at ==> s[i] != 'a'
    ensures OccurrencesFrom(s, "ab", from) == [at] + OccurrencesFrom(s, "ab", at + 2)
  {
    FindIsLeftmost(s, "ab", from);
    assert s[at..at + 2] == "ab";
    assert OccursAt(s, "ab", at);
    forall i | OccursAt(s, "ab", i)
      ensures s[i] == 'a'
    {
      assert s[i..i + 2][0] == s[i];
    }
    assert Find(s, "ab", from) == at;
  }

  lemma TwoAtEitherSide(s: string)
    requires s == "abx...ab"
    ensures OccurrencesFrom(s, "ab", 0) == [0, 6]
  {
    NextOccurrence(s, 0, 0);
    NextOccurrence(s, 2, 6);
    assert OccurrencesFrom(s, "ab", 8) == [];
  }

  lemma FocusInTheMiddle(s: string)
    requires s == "abx...ab"
    ensures SourceWindows.FocusPosition(Plainly(s), SourceWindows.DEFAULT_KEYWORDS).0 == 4
  {
    StartsNothing(s);
    SourceWindows.DefaultFocus(Plainly(s));
  }

  /******* The compiler *******/

  // The step is at most twelve, at least one, and otherwise half of what the cap leaves; each
  // side takes it in full unless the source ends before.
  lemma ReachIsBalanced(source: string, a: Anchor, maxFind: int)
    requires a.start + |a.find| <= |source| && |a.find| < maxFind
    ensures var (left, right) := Reach(source, a, maxFind);
            var room, behind := maxFind - |a.find|, |source| - a.start - |a.find|;
            && left <= 12 && right <= 12
            && (left < a.start && right < behind ==> left == right)
            && (left < a.start ==> left == 12 || room - 1 <= 2 * left <= room || left == 1)
            && (right < behind ==> right == 12 || room - 1 <= 2 * right <= room || right == 1)
            && (left >= 2 ==> 2 * left <= room) && (right >= 2 ==> 2 * right <= room)
            && (left == 0 ==> a.start == 0) && (right == 0 ==> behind == 0)
  {
  }

  // Where compiling starts: with the snippet as it is when it is unique and declares no function,
  // and otherwise with what a maximal trim leaves of it, if it leaves anything to find.
  lemma InitialAnchorIsTrimmed(source: string, g: Guards, start: nat, find: string, replace: string, p: nat, s: nat)
    requires find != "" && OccursAt(source, find, start) && IsMaximalTrim(find, replace, p, s)
    ensures var a := InitialAnchor(source, g, start, find, replace);
            if (Count(source, find, 0) == 1 && !g.declaresFunction(find)) || p + s == |find|
            then a == Anchor(find, replace, start)
            else a == Anchor(find[p..|find| - s], replace[p..|replace| - s], start + p)
  {
    MaximalTrimIsUnique(find, replace, p, s);
  }

  /******* What is admitted, and why the rest is rejected *******/

  // Anchor b is reached from the first one, and counts once in the source.
  ghost predicate Widens(source: string, first: Anchor, b: Anchor) {
    Extends(source, first, b) && Count(source, b.find, 0) == 1
  }

  // No guard objects to the edit, to what trimming leaves of it, or to the anchor.
  predicate PassesGuards(source: string, g: Guards, start: nat, find: string, replace: string, first: Anchor,
                         b: Anchor)
  {
    && !g.IdentityEdit(find, replace) && !g.IdentityEdit(first.find, first.replace)
    && !g.partialFunction(find, replace) && !g.partialFunction(b.find, b.replace)
    && !g.removesLiveBinding(source, start, find, replace) && !g.emptyDeletion(find, replace)
  }

  predicate Fits(b: Anchor, maxFind: int, maxReplace: int) {
    |b.find| <= maxFind && |b.replace| <= maxReplace
  }

  // What each reason says of the edit.
  ghost predicate Explains(source: string, g: Guards, start: nat, find: string, replace: string, first: Anchor,
                           maxFind: int, maxReplace: int, reason: Reason)
  {
    match reason
    case NoOp => g.IdentityEdit(find, replace) || g.IdentityEdit(first.find, first.replace)
    case PartialFunction =>
      || g.partialFunction(find, replace)
      || exists b :: Widens(source, first, b) && Fits(b, maxFind, maxReplace) && g.partialFunction(b.find, b.replace)
    case Unresolvable =>
      exists b :: Extends(source, first, b) && |b.find| >= maxFind && Count(source, b.find, 0) != 1
    case ReplacementTooLarge => exists b :: Extends(source, first, b) && |b.replace| > maxReplace
    case Oversized => exists b :: Widens(source, first, b) && !Fits(b, maxFind, maxReplace)
    case RemovedLiveBinding =>
      && g.removesLiveBinding(source, start, find, replace)
      && exists b :: Widens(source, first, b) && Fits(b, maxFind, maxReplace) && !g.partialFunction(b.find, b.replace)
    case EmptyDeletion =>
      && g.emptyDeletion(find, replace) && !g.removesLiveBinding(source, start, find, replace)
      && exists b :: Widens(source, first, b) && Fits(b, maxFind, maxReplace) && !g.partialFunction(b.find, b.replace)
    case _ => false
  }

  // The anchor at which widening gives up, and why.
  ghost predicate GivesUp(source: string, b: Anchor, maxFind: int, maxReplace: int, reason: Reason)
    requires b.find != ""
  {
    match reason
    case Unresolvable => |b.find| >= maxFind && Count(source, b.find, 0) != 1
    case ReplacementTooLarge => |b.replace| > maxReplace
    case _ => false
  }

  lemma ExtendsThrough(source: string, a: Anchor, c: Anchor, b: Anchor)
    requires Extends(source, a, c) && Extends(source, c, b)
    ensures Extends(source, a, b)
  {
  }

  lemma {:induction false} WideningRejects(source: string, a: Anchor, maxFind: int, maxReplace: int)
    returns (b: Anchor)
    requires AnchorIn(source, a) && Widened(source, a, maxFind, maxReplace).Rejected?
    ensures Extends(source, a, b)
    ensures GivesUp(source, b, maxFind, maxReplace, Widened(source, a, maxFind, maxReplace).reason)
    decreases |source| - |a.find|
  {
    b := a;
    if |a.find| < maxFind {
      var (left, right) := Reach(source, a, maxFind);
      if (left, right) == (0, 0) { NoRoomMeansUnique(source, a, maxFind); }
      var c := Grown(source, a, left, right);
      GrowthKeepsEdit(source, a, left, right);
      b := c;
      if |c.replace| <= maxReplace {
        b := WideningRejects(source, c, maxFind, maxReplace);
        ExtendsThrough(source, a, c, b);
      }
    }
  }

  // An edit that compiles has passed every guard.
  lemma CompiledPasses(source: string, g: Guards, start: nat, find: string, replace: string,
                       maxFind: int, maxReplace: int, b: Anchor)
    requires find != "" && OccursAt(source, find, start)
    requires Compiled(source, g, start, find, replace, maxFind, maxReplace) == Ok(b)
    ensures var first := InitialAnchor(source, g, start, find, replace);
            && Widens(source, first, b) && Fits(b, maxFind, maxReplace)
            && PassesGuards(source, g, start, find, replace, first, b)
  {
    WideningKeepsEdit(source, InitialAnchor(source, g, start, find, replace), maxFind, maxReplace, b);
  }

  // An edit that does not compile is rejected for a reason that holds of it.
  lemma RejectionIsExplained(source: string, g: Guards, start: nat, find: string, replace: string,
                             maxFind: int, maxReplace: int)
    requires find != "" && OccursAt(source, find, start)
    requires Compiled(source, g, start, find, replace, maxFind, maxReplace).Rejected?
    ensures Explains(source, g, start, find, replace, InitialAnchor(source, g, start, find, replace), maxFind,
                     maxReplace, Compiled(source, g, start, find, replace, maxFind, maxReplace).reason)
  {
    var first := InitialAnchor(source, g, start, find, replace);
    match Widened(source, first, maxFind, maxReplace)
    case Rejected(_) => var b := WideningRejects(source, first, maxFind, maxReplace);
    case Ok(b) =>
      WideningKeepsEdit(source, first, maxFind, maxReplace, b);
      assert Widens(source, first, b);
  }

  // No guard objects to the edit, nor to any anchor around it.
  ghost predicate Unobjectionable(source: string, g: Guards, start: nat, find: string, replace: string, first: Anchor) {
    && !g.IdentityEdit(find, replace) && !g.IdentityEdit(first.find, first.replace)
    && !g.partialFunction(find, replace)
    && (forall b :: Widens(source, first, b) ==> !g.partialFunction(b.find, b.replace))
    && !g.removesLiveBinding(source, start, find, replace) && !g.emptyDeletion(find, replace)
  }

  // The caps admit the whole source, edited.
  predicate Roomy(source: string, first: Anchor, maxFind: int, maxReplace: int) {
    |source| <= maxFind && |source| - |first.find| + |first.replace| <= maxReplace
  }

  lemma ExtensionLength(source: string, a: Anchor, b: Anchor)
    requires Extends(source, a, b)
    ensures |b.find| <= |source| && |b.replace| - |b.find| == |a.replace| - |a.find|
  {
    assert |Applied(source, a)| == |source| - |a.find| + |a.replace|;
    assert |Applied(source, b)| == |source| - |b.find| + |b.replace|;
  }

  // With caps that admit the whole source, an edit no guard objects to compiles.
  lemma UnobjectionableCompiles(source: string, g: Guards, start: nat, find: string, replace: string,
                                maxFind: int, maxReplace: int)
    requires find != "" && OccursAt(source, find, start)
    requires Unobjectionable(source, g, start, find, replace, InitialAnchor(source, g, start, find, replace))
    requires Roomy(source, InitialAnchor(source, g, start, find, replace), maxFind, maxReplace)
    ensures Compiled(source, g, start, find, replace, maxFind, maxReplace).Ok?
  {
    var first := InitialAnchor(source, g, start, find, replace);
    WideningSucceedsWithinCaps(source, first, maxFind, maxReplace);
    var b := Widened(source, first, maxFind, maxReplace).value;
    WideningKeepsEdit(source, first, maxFind, maxReplace, b);
    ExtensionLength(source, first, b);
    assert Widens(source, first, b);
  }

  lemma StartIsUnique(source: string, windows: seq<Window>, windowId: string, hint: Option<int>, find: string,
                      a: int, b: int)
    requires find != "" && StartsAt(source, windows, windowId, hint, find, a)
    requires StartsAt(source, windows, windowId, hint, find, b)
    ensures a == b
  {
    if hint.None? && windowId != "" {
      var i: nat :| FirstWithId(windows, windowId, i) && RanksFirst(BestRanks(Searched(windows, i, find), find), a);
      var j: nat :| FirstWithId(windows, windowId, j) && RanksFirst(BestRanks(Searched(windows, j, find), find), b);
      assert i == j;
      FirstIsUnique(BestRanks(Searched(windows, i, find), find), a);
    }
  }

  // What the compiler answers about the edit at a located start.
  ghost predicate AnswersAt(source: string, g: Guards, start: nat, find: string, replace: string,
                            maxFind: int, maxReplace: int, r: Outcome<Anchor>)
    requires find != "" && OccursAt(source, find, start)
  {
    var first := InitialAnchor(source, g, start, find, replace);
    && (r.Ok? ==> && Widens(source, first, r.value) && Fits(r.value, maxFind, maxReplace)
                  && PassesGuards(source, g, start, find, replace, first, r.value))
    && (r.Rejected? ==> Explains(source, g, start, find, replace, first, maxFind, maxReplace, r.reason))
    && (Unobjectionable(source, g, start, find, replace, first) && Roomy(source, first, maxFind, maxReplace) ==> r.Ok?)
  }

  lemma CompiledAnswers(source: string, g: Guards, start: nat, find: string, replace: string,
                        maxFind: int, maxReplace: int)
    requires find != "" && OccursAt(source, find, start)
    ensures AnswersAt(source, g, start, find, replace, maxFind, maxReplace,
                      Compiled(source, g, start, find, replace, maxFind, maxReplace))
  {
    var r := Compiled(source, g, start, find, replace, maxFind, maxReplace);
    match r
    case Ok(b) => CompiledPasses(source, g, start, find, replace, maxFind, maxReplace, b);
    case Rejected(_) => RejectionIsExplained(source, g, start, find, replace, maxFind, maxReplace);
    var first := InitialAnchor(source, g, start, find, replace);
    if Unobjectionable(source, g, start, find, replace, first) && Roomy(source, first, maxFind, maxReplace) {
      UnobjectionableCompiles(source, g, start, find, replace, maxFind, maxReplace);
    }
  }

  method ResolveStructuredAnchor(source: string, g: Guards, windows: seq<Window>, windowId: string,
                                 hint: Option<int>, find: string, replace: string,
                                 maxFind: int, maxReplace: int)
    returns (r: Outcome<Anchor>)
    ensures source == "" ==> r == Rejected(MissingSource)
    ensures source != "" && find == "" ==> r == Rejected(MissingFind)
    ensures source != "" && find != "" ==>
      if exists start :: StartsAt(source, windows, windowId, hint, find, start)
      then exists start: nat :: StartsAt(source, windows, windowId, hint, find, start)
             && r == Compiled(source, g, start, find, replace, maxFind, maxReplace)
      else r.Rejected? && r.reason in {Drifted, UnknownWindow, NotInAnyWindow, Ambiguous, NotUnique}
    ensures source != "" && find != "" ==>
      forall start: nat :: StartsAt(source, windows, windowId, hint, find, start)
        ==> AnswersAt(source, g, start, find, replace, maxFind, maxReplace, r)
  {
    if source == "" {
      return Rejected(MissingSource);
    }
    if find == "" {
      return Rejected(MissingFind);
    }
    var located := LocateEdit(source, windows, windowId, hint, find);
    if located.Rejected? {
      return Rejected(located.reason);
    }
    var start: nat := located.value;
    CompiledAnswers(source, g, start, find, replace, maxFind, maxReplace);
    forall other: nat | StartsAt(source, windows, windowId, hint, find, other)
      ensures other == start
    {
      StartIsUnique(source, windows, windowId, hint, find, other, start);
    }
    if g.IdentityEdit(find, replace) {
      return Rejected(NoOp);
    }
    if g.partialFunction(find, replace) {
      return Rejected(PartialFunction);
    }
    var anchor := Anchor(find, replace, start);
    if Count(source, find, 0) != 1 || g.declaresFunction(find) {
      var trimmedFind, trimmedReplace, prefix := MinimizeLocalEdit(find, replace);
      anchor := Anchor(trimmedFind, trimmedReplace, start + prefix);
    }
    assert anchor == InitialAnchor(source, g, start, find, replace);
    if g.IdentityEdit(anchor.find, anchor.replace) {
      return Rejected(NoOp);
    }
    r := WidenAnchor(source, anchor, maxFind, maxReplace);
    if r.Ok? {
      r := Admitted(source, g, start, find, replace, r.value, maxFind, maxReplace);
    }
    assert r == Compiled(source, g, start, find, replace, maxFind, maxReplace);
  }
}
