/**
 The balanced-brace scanner of `source_units.py`. Its lexical mode at every position
 is defined on its own, without any depth; the scanner is then specified as finding
 the first position at which the braces met in code mode balance.
 */
module BraceScanner {
  import opened Basics
  import opened PythonText

  // `Skipped` is the second character of a two-character token.
  datatype Mode =
    | Code | LineComment | BlockComment | Quoted(mark: char, escaped: bool)
    | Regex(escaped: bool, inClass: bool) | Skipped(after: Mode)

  // Lexical state: the mode, and the last significant character met in code.
  datatype Lex = Lex(mode: Mode, last: Option<char>)

  // Character classes and the keyword test on the text just before a slash.
  datatype Chars = Chars(isSpace: char -> bool, endsWithKeyword: string -> bool)

  const OPERATORS := "([{:;,=!?&|+-*%^~<>"

  predicate NextIs(text: string, i: nat, c: char) {
    i + 1 < |text| && text[i + 1] == c
  }

  function Behind(text: string, lo: nat, i: nat): string
    requires lo <= i <= |text|
  {
    text[if i - 20 < lo then lo else i - 20..i]
  }

  predicate StartsRegex(k: Chars, text: string, lo: nat, i: nat, last: Option<char>)
    requires lo <= i <= |text|
  {
    last.None? || last.value in OPERATORS || k.endsWithKeyword(Behind(text, lo, i))
  }

  // One character of the automaton.
  function Next(k: Chars, text: string, lo: nat, i: nat, s: Lex): Lex
    requires lo <= i < |text|
  {
    var c := text[i];
    match s.mode
    case Skipped(after) => s.(mode := after)
    case LineComment => if c == '\r' || c == '\n' then s.(mode := Code) else s
    case BlockComment => if c == '*' && NextIs(text, i, '/') then s.(mode := Skipped(Code)) else s
    case Quoted(mark, escaped) =>
      if escaped then s.(mode := Quoted(mark, false))
      else if c == '\\' then s.(mode := Quoted(mark, true))
      else if c == mark then s.(mode := Code)
      else s
    case Regex(escaped, inClass) =>
      if escaped then s.(mode := Regex(false, inClass))
      else if c == '\\' then s.(mode := Regex(true, inClass))
      else if c == '[' then s.(mode := Regex(false, true))
      else if c == ']' && inClass then s.(mode := Regex(false, false))
      else if c == '/' && !inClass then Lex(Code, Some('/'))
      else s
    case Code =>
      if c == '/' && NextIs(text, i, '/') then s.(mode := Skipped(LineComment))
      else if c == '/' && NextIs(text, i, '*') then s.(mode := Skipped(BlockComment))
      else if c == '\'' || c == '"' || c == '`' then s.(mode := Quoted(c, false))
      else if c == '/' && StartsRegex(k, text, lo, i, s.last) then s.(mode := Regex(false, false))
      else if k.isSpace(c) then s
      else s.(last := Some(c))
  }

  // The lexical state in front of position i of a scan that starts at lo.
  function LexAt(k: Chars, text: string, lo: nat, i: nat): Lex
    requires lo <= i <= |text|
    decreases i - lo
  {
    if i == lo then Lex(Code, None) else Next(k, text, lo, i - 1, LexAt(k, text, lo, i - 1))
  }

  // What position i contributes to the depth: only braces in code count.
  function Weight(k: Chars, text: string, lo: nat, i: nat): int
    requires lo <= i < |text|
  {
    if !LexAt(k, text, lo, i).mode.Code? then 0
    else if text[i] == '{' then 1
    else if text[i] == '}' then -1
    else 0
  }

  function Depth(k: Chars, text: string, lo: nat, i: nat): int
    requires lo <= i <= |text|
    decreases i - lo
  {
    if i == lo then 0 else Depth(k, text, lo, i - 1) + Weight(k, text, lo, i - 1)
  }

  // The braces of text[lo..end] balance, and those of no shorter part do.
  ghost predicate ClosesAt(k: Chars, text: string, lo: nat, end: int) {
    && lo < end <= |text| && Depth(k, text, lo, end) == 0
    && forall j :: lo < j < end ==> Depth(k, text, lo, j) > 0
  }

  // text.find("{", start)
  function FirstBrace(text: string, start: nat): (p: int)
    ensures p == -1 ==> forall j :: start <= j < |text| ==> text[j] != '{'
    ensures p != -1 ==> start <= p < |text| && text[p] == '{' && forall j :: start <= j < p ==> text[j] != '{'
    decreases |text| - start
  {
    if start >= |text| then -1 else if text[start] == '{' then start else FirstBrace(text, start + 1)
  }

  // `end` is the exclusive end of the braced block that opens at or after `start`, or
  // -1 when there is none.
  ghost predicate IsFunctionEnd(k: Chars, text: string, start: nat, end: int) {
    var open := FirstBrace(text, start);
    if end == -1 then open == -1 || forall e :: !ClosesAt(k, text, open, e)
    else open != -1 && ClosesAt(k, text, open, end)
  }

  // The scanner's flags. At most one of the first four is set.
  datatype Flags = Flags(lineComment: bool, blockComment: bool, quote: Option<char>, regex: bool,
                         escaped: bool, regexClass: bool, prevSig: Option<char>)
  {
    predicate Outside() {
      lineComment || blockComment || quote.Some? || regex
    }

    ghost predicate Valid() {
      && (escaped ==> quote.Some? || regex)
      && (lineComment ==> !blockComment && quote.None? && !regex)
      && (blockComment ==> quote.None? && !regex)
      && (quote.Some? ==> !regex)
    }

    ghost function State(): Lex {
      Lex(if lineComment then LineComment
          else if blockComment then BlockComment
          else if quote.Some? then Quoted(quote.value, escaped)
          else if regex then Regex(escaped, regexClass)
          else Code, prevSig)
    }
  }

  // The flags and the depth describe the scan in front of position i.
  ghost predicate Describes(k: Chars, text: string, lo: nat, i: nat, f: Flags, depth: int)
    requires lo <= i <= |text|
  {
    f.Valid() && f.State() == LexAt(k, text, lo, i) && depth == Depth(k, text, lo, i)
  }

  ghost predicate StaysOpen(k: Chars, text: string, lo: nat, i: nat)
    requires lo <= i <= |text|
    decreases i - lo
  {
    i == lo || (Depth(k, text, lo, i) > 0 && StaysOpen(k, text, lo, i - 1))
  }

  lemma {:induction false} StaysOpenThroughout(k: Chars, text: string, lo: nat, i: nat)
    requires lo <= i <= |text| && StaysOpen(k, text, lo, i)
    ensures forall j :: lo < j <= i ==> Depth(k, text, lo, j) > 0
    decreases i - lo
  {
    if i > lo {
      StaysOpenThroughout(k, text, lo, i - 1);
    }
  }

  lemma ClosesNext(k: Chars, text: string, lo: nat, i: nat)
    requires lo <= i < |text| && StaysOpen(k, text, lo, i) && Depth(k, text, lo, i + 1) == 0
    ensures ClosesAt(k, text, lo, i + 1)
  {
    StaysOpenThroughout(k, text, lo, i);
  }

  lemma NeverCloses(k: Chars, text: string, lo: nat)
    requires lo <= |text| && StaysOpen(k, text, lo, |text|)
    ensures forall e :: !ClosesAt(k, text, lo, e)
  {
    StaysOpenThroughout(k, text, lo, |text|);
  }

  lemma SkipsTwo(k: Chars, text: string, lo: nat, i: nat, after: Mode)
    requires lo <= i && i + 1 < |text|
    requires LexAt(k, text, lo, i + 1).mode == Skipped(after)
    ensures LexAt(k, text, lo, i + 2) == LexAt(k, text, lo, i + 1).(mode := after)
    ensures Depth(k, text, lo, i + 2) == Depth(k, text, lo, i + 1)
  {
  }

  // One round of the loop inside a comment, a string or a regular expression.
  method AdvanceOutside(k: Chars, text: string, ghost lo: nat, at: nat, flags: Flags, ghost depth: int)
    returns (f: Flags, i: nat)
    requires lo <= at < |text| && flags.Outside() && Describes(k, text, lo, at, flags, depth)
    ensures at < i <= |text| && Describes(k, text, lo, i, f, depth)
    ensures i <= at + 2 && (i == at + 2 ==> Depth(k, text, lo, at + 1) == depth)
  {
    f, i := flags, at + 1;
    var ch := text[at];
    if f.lineComment {
      if ch == '\r' || ch == '\n' {
        f := f.(lineComment := false);
      }
    } else if f.blockComment {
      if ch == '*' && NextIs(text, at, '/') {
        f := f.(blockComment := false);
        SkipsTwo(k, text, lo, at, Code);
        i := at + 2;
      }
    } else if f.quote.Some? {
      if f.escaped {
        f := f.(escaped := false);
      } else if ch == '\\' {
        f := f.(escaped := true);
      } else if ch == f.quote.value {
        f := f.(quote := None);
      }
    } else {
      if f.escaped {
        f := f.(escaped := false);
      } else if ch == '\\' {
        f := f.(escaped := true);
      } else if ch == '[' {
        f := f.(regexClass := true);
      } else if ch == ']' && f.regexClass {
        f := f.(regexClass := false);
      } else if ch == '/' && !f.regexClass {
        f := f.(regex := false, prevSig := Some('/'));
      }
    }
  }

  // One round of the loop in front of a slash or a quote that leaves code mode.
  method LeaveCode(k: Chars, text: string, lo: nat, at: nat, flags: Flags, ghost depth: int)
    returns (left: bool, f: Flags, i: nat)
    requires lo <= at < |text| && !flags.Outside() && Describes(k, text, lo, at, flags, depth)
    ensures left ==> at < i <= |text| && Describes(k, text, lo, i, f, depth)
    ensures left ==> i <= at + 2 && (i == at + 2 ==> Depth(k, text, lo, at + 1) == depth)
    ensures !left ==> Next(k, text, lo, at, flags.State()).mode == Code
  {
    left, f, i := true, flags, at + 1;
    var ch := text[at];
    if ch == '/' && NextIs(text, at, '/') {
      f := f.(lineComment := true);
      SkipsTwo(k, text, lo, at, LineComment);
      i := at + 2;
    } else if ch == '/' && NextIs(text, at, '*') {
      f := f.(blockComment := true);
      SkipsTwo(k, text, lo, at, BlockComment);
      i := at + 2;
    } else if ch == '\'' || ch == '"' || ch == '`' {
      f := f.(quote := Some(ch));
    } else if ch == '/' && StartsRegex(k, text, lo, at, f.prevSig) {
      f := f.(regex := true, regexClass := false, escaped := false);
    } else {
      left := false;
    }
  }

  method JavascriptFunctionEnd(k: Chars, text: string, start: int) returns (end: int)
    ensures IsFunctionEnd(k, text, if start < 0 then 0 else start, end)
  {
    var open := FirstBrace(text, if start < 0 then 0 else start);
    if open < 0 {
      return -1;
    }
    var depth, i, f := 0, open, Flags(false, false, None, false, false, false, None);
    while i < |text|
      invariant open <= i <= |text|
      invariant Describes(k, text, open, i, f, depth) && StaysOpen(k, text, open, i)
    {
      if f.Outside() {
        f, i := AdvanceOutside(k, text, open, i, f, depth);
        continue;
      }
      var left, f', i' := LeaveCode(k, text, open, i, f, depth);
      if left {
        f, i := f', i';
        continue;
      }
      if text[i] == '{' {
        depth := depth + 1;
      } else if text[i] == '}' {
        depth := depth - 1;
        if depth == 0 {
          ClosesNext(k, text, open, i);
          return i + 1;
        }
      }
      // The source's test for a negative depth has nothing left to catch here.
      assert depth >= 0;
      if !k.isSpace(text[i]) {
        f := f.(prevSig := Some(text[i]));
      }
      i := i + 1;
    }
    NeverCloses(k, text, open);
    return -1;
  }

  /******* What a found end says *******/

  lemma EndIsUnique(k: Chars, text: string, start: nat, e: int, f: int)
    requires IsFunctionEnd(k, text, start, e) && IsFunctionEnd(k, text, start, f)
    ensures e == f
  {
  }

  // The block ends with a closing brace in code, and the depth never goes negative.
  lemma EndIsClosingBrace(k: Chars, text: string, lo: nat, end: int)
    requires lo < |text| && text[lo] == '{' && ClosesAt(k, text, lo, end)
    ensures lo + 2 <= end && text[end - 1] == '}' && LexAt(k, text, lo, end - 1).mode.Code?
    ensures forall j :: lo <= j <= end ==> Depth(k, text, lo, j) >= 0
  {
    assert Depth(k, text, lo, lo + 1) == 1;
    assert Depth(k, text, lo, end) == Depth(k, text, lo, end - 1) + Weight(k, text, lo, end - 1);
  }

  /******* Stability *******/

  // text[lo..hi] and text'[lo'..] agree on hi - lo characters.
  ghost predicate SameText(text: string, lo: nat, hi: nat, text': string, lo': nat) {
    lo <= hi <= |text| && lo' + (hi - lo) <= |text'| && text[lo..hi] == text'[lo'..lo' + (hi - lo)]
  }

  lemma SameCharacter(text: string, lo: nat, hi: nat, text': string, lo': nat, i: nat)
    requires SameText(text, lo, hi, text', lo') && lo <= i < hi
    ensures text[i] == text'[lo' + (i - lo)]
  {
  }

  lemma SameBehind(text: string, lo: nat, hi: nat, text': string, lo': nat, i: nat)
    requires SameText(text, lo, hi, text', lo') && lo <= i <= hi
    ensures Behind(text, lo, i) == Behind(text', lo', lo' + (i - lo))
  {
    var from := if i - 20 < lo then lo else i - 20;
    SliceOfSlice(text, lo, hi, from - lo, i - lo);
    SliceOfSlice(text', lo', lo' + (hi - lo), from - lo, i - lo);
  }

  // Looking one character ahead and twenty behind never leaves the shared part.
  lemma {:induction false} SameLex(k: Chars, text: string, lo: nat, hi: nat, text': string, lo': nat, i: nat)
    requires SameText(text, lo, hi, text', lo') && lo <= i < hi
    ensures LexAt(k, text, lo, i) == LexAt(k, text', lo', lo' + (i - lo))
    decreases i - lo
  {
    if i > lo {
      SameLex(k, text, lo, hi, text', lo', i - 1);
      SameCharacter(text, lo, hi, text', lo', i - 1);
      SameCharacter(text, lo, hi, text', lo', i);
      SameBehind(text, lo, hi, text', lo', i - 1);
    }
  }

  lemma {:induction false} SameDepth(k: Chars, text: string, lo: nat, hi: nat, text': string, lo': nat, i: nat)
    requires SameText(text, lo, hi, text', lo') && lo <= i <= hi
    ensures Depth(k, text, lo, i) == Depth(k, text', lo', lo' + (i - lo))
    decreases i - lo
  {
    if i > lo {
      SameDepth(k, text, lo, hi, text', lo', i - 1);
      SameLex(k, text, lo, hi, text', lo', i - 1);
      SameCharacter(text, lo, hi, text', lo', i - 1);
    }
  }

  lemma FirstBraceMoves(text: string, start: nat, end: nat, text': string, start': nat, open: nat, open': nat)
    requires SameText(text, start, end, text', start') && FirstBrace(text, start) == open < end
    requires open' == start' + (open - start)
    ensures FirstBrace(text', start') == open'
  {
    SameCharacter(text, start, end, text', start', open);
    forall j' | start' <= j' < open'
      ensures text'[j'] != '{'
    {
      SameCharacter(text, start, end, text', start', start + (j' - start'));
    }
  }

  lemma SameRest(text: string, lo: nat, hi: nat, text': string, lo': nat, mid: nat, mid': nat)
    requires SameText(text, lo, hi, text', lo') && lo <= mid <= hi && mid' == lo' + (mid - lo)
    ensures SameText(text, mid, hi, text', mid')
  {
    assert text[mid..hi] == text[lo..hi][mid - lo..];
    assert text'[mid'..lo' + (hi - lo)] == text'[lo'..lo' + (hi - lo)][mid - lo..];
  }

  lemma ClosingMoves(k: Chars, text: string, lo: nat, end: nat, text': string, lo': nat)
    requires ClosesAt(k, text, lo, end) && SameText(text, lo, end, text', lo')
    ensures ClosesAt(k, text', lo', lo' + (end - lo))
  {
    SameDepth(k, text, lo, end, text', lo', end);
    forall j' | lo' < j' < lo' + (end - lo)
      ensures Depth(k, text', lo', j') > 0
    {
      SameDepth(k, text, lo, end, text', lo', lo + (j' - lo'));
    }
  }

  // Main result: the scanner's answer depends on nothing outside the block it found.
  // Moving that block to another text, or cutting the text behind it, moves the answer
  // along.
  lemma EndMovesWithBlock(k: Chars, text: string, start: nat, end: nat, text': string, start': nat)
    requires IsFunctionEnd(k, text, start, end) && SameText(text, start, end, text', start')
    ensures IsFunctionEnd(k, text', start', start' + (end - start))
  {
    var open := FirstBrace(text, start);
    var open' := start' + (open - start);
    FirstBraceMoves(text, start, end, text', start', open, open');
    SameRest(text, start, end, text', start', open, open');
    ClosingMoves(k, text, open, end, text', open');
  }

  // The unit selector's check: a fragment cut out at a found end scans to its full
  // length on its own, and a fragment that does so scans to the same end in place.
  lemma FragmentCheckIsExact(k: Chars, text: string, start: nat, end: nat)
    requires start <= end <= |text|
    ensures IsFunctionEnd(k, text, start, end) <==> IsFunctionEnd(k, text[start..end], 0, end - start)
  {
    var fragment := text[start..end];
    assert fragment[0..|fragment|] == fragment;
    if IsFunctionEnd(k, text, start, end) {
      EndMovesWithBlock(k, text, start, end, fragment, 0);
    }
    if IsFunctionEnd(k, fragment, 0, end - start) {
      EndMovesWithBlock(k, fragment, 0, end - start, text, start);
    }
  }

  // Any text that shares the first `end` characters has the same function end.
  lemma EndSurvivesNewTail(k: Chars, text: string, start: nat, end: nat, tail: string)
    requires start <= end && IsFunctionEnd(k, text, start, end)
    ensures IsFunctionEnd(k, text[..end] + tail, start, end)
  {
    assert (text[..end] + tail)[start..end] == text[start..end];
    EndMovesWithBlock(k, text, start, end, text[..end] + tail, start);
  }
}
