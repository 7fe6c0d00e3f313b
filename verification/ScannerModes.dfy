/**
 What the lexical modes of the brace scanner cover, said over the text alone: where a string, a
 comment or a regular expression ends, what opens one, and which character is the last
 significant one.
 */
module ScannerModes {
  import opened Basics
  import opened BraceScanner

  // How many backslashes stand right before position i, not looking before `from`.
  function Backslashes(text: string, from: nat, i: nat): nat
    requires from <= i <= |text|
    decreases i - from
  {
    if i == from || text[i - 1] != '\\' then 0 else 1 + Backslashes(text, from, i - 1)
  }

  // An odd run of them escapes the character.
  predicate Escaped(text: string, from: nat, i: nat)
    requires from <= i <= |text|
  {
    Backslashes(text, from, i) % 2 == 1
  }

  lemma EscapedStep(text: string, from: nat, i: nat)
    requires from <= i < |text|
    ensures Escaped(text, from, i + 1) <==> text[i] == '\\' && !Escaped(text, from, i)
    ensures !Escaped(text, from, from)
  {
  }

  predicate InCode(k: Chars, text: string, lo: nat, i: nat)
    requires lo <= i <= |text|
  {
    LexAt(k, text, lo, i).mode.Code?
  }

  /******* Strings *******/

  predicate IsMark(c: char) { c == '\'' || c == '"' || c == '`' }

  // The mark at e ends the string opened at p: the same mark, and not escaped.
  predicate EndsString(text: string, p: nat, e: nat) {
    p < e < |text| && text[e] == text[p] && !Escaped(text, p + 1, e)
  }

  lemma {:induction false} StringGoesOn(k: Chars, text: string, lo: nat, p: nat, i: nat)
    requires lo <= p < i <= |text| && InCode(k, text, lo, p) && IsMark(text[p])
    requires forall e :: p < e < i ==> !EndsString(text, p, e)
    ensures LexAt(k, text, lo, i)
            == Lex(Quoted(text[p], Escaped(text, p + 1, i)), LexAt(k, text, lo, p).last)
    decreases i - p
  {
    if i == p + 1 {
      assert LexAt(k, text, lo, i) == Next(k, text, lo, p, LexAt(k, text, lo, p));
    } else {
      StringGoesOn(k, text, lo, p, i - 1);
      EscapedStep(text, p + 1, i - 1);
      assert !EndsString(text, p, i - 1);
    }
  }

  // A mark met in code opens a string that lasts up to the first later mark of its kind behind
  // an even run of backslashes; code resumes behind it, and the last significant character stays.
  lemma StringLasts(k: Chars, text: string, lo: nat, p: nat, end: nat)
    requires lo <= p < end < |text| && InCode(k, text, lo, p) && IsMark(text[p])
    requires EndsString(text, p, end) && forall e :: p < e < end ==> !EndsString(text, p, e)
    ensures forall i :: p < i <= end ==> LexAt(k, text, lo, i).mode == Quoted(text[p], Escaped(text, p + 1, i))
    ensures LexAt(k, text, lo, end + 1) == LexAt(k, text, lo, p)
  {
    forall i | p < i <= end
      ensures LexAt(k, text, lo, i).mode == Quoted(text[p], Escaped(text, p + 1, i))
    {
      StringGoesOn(k, text, lo, p, i);
    }
    StringGoesOn(k, text, lo, p, end);
  }

  // Without such a mark it lasts to the end of the text.
  lemma OpenStringLasts(k: Chars, text: string, lo: nat, p: nat)
    requires lo <= p < |text| && InCode(k, text, lo, p) && IsMark(text[p])
    requires forall e :: p < e < |text| ==> !EndsString(text, p, e)
    ensures forall i :: p < i <= |text| ==> LexAt(k, text, lo, i).mode.Quoted?
  {
    forall i | p < i <= |text|
      ensures LexAt(k, text, lo, i).mode.Quoted?
    {
      StringGoesOn(k, text, lo, p, i);
    }
  }

  /******* Comments *******/

  predicate EndsLine(text: string, e: nat) {
    e < |text| && (text[e] == '\r' || text[e] == '\n')
  }

  lemma {:induction false} LineCommentGoesOn(k: Chars, text: string, lo: nat, p: nat, i: nat)
    requires lo <= p && p + 2 <= i <= |text| && InCode(k, text, lo, p) && text[p] == '/' && text[p + 1] == '/'
    requires forall e :: p + 2 <= e < i ==> !EndsLine(text, e)
    ensures LexAt(k, text, lo, i) == Lex(LineComment, LexAt(k, text, lo, p).last)
    decreases i - p
  {
    if i == p + 2 {
      assert LexAt(k, text, lo, p + 1) == Next(k, text, lo, p, LexAt(k, text, lo, p));
    } else {
      LineCommentGoesOn(k, text, lo, p, i - 1);
      assert !EndsLine(text, i - 1);
    }
  }

  // Two slashes in code open a comment up to the first line end.
  lemma LineCommentLasts(k: Chars, text: string, lo: nat, p: nat, end: nat)
    requires lo <= p && p + 2 <= end < |text| && InCode(k, text, lo, p) && text[p] == '/' && text[p + 1] == '/'
    requires EndsLine(text, end) && forall e :: p + 2 <= e < end ==> !EndsLine(text, e)
    ensures forall i :: p < i <= end ==> !InCode(k, text, lo, i)
    ensures LexAt(k, text, lo, end + 1) == LexAt(k, text, lo, p)
  {
    forall i | p < i <= end
      ensures !InCode(k, text, lo, i)
    {
      if i >= p + 2 { LineCommentGoesOn(k, text, lo, p, i); }
    }
    LineCommentGoesOn(k, text, lo, p, end);
  }

  predicate EndsBlock(text: string, e: nat) {
    e + 1 < |text| && text[e] == '*' && text[e + 1] == '/'
  }

  lemma {:induction false} BlockCommentGoesOn(k: Chars, text: string, lo: nat, p: nat, i: nat)
    requires lo <= p && p + 2 <= i <= |text| && InCode(k, text, lo, p) && text[p] == '/' && text[p + 1] == '*'
    requires forall e :: p + 2 <= e < i ==> !EndsBlock(text, e)
    ensures LexAt(k, text, lo, i) == Lex(BlockComment, LexAt(k, text, lo, p).last)
    decreases i - p
  {
    if i == p + 2 {
      assert LexAt(k, text, lo, p + 1) == Next(k, text, lo, p, LexAt(k, text, lo, p));
    } else {
      BlockCommentGoesOn(k, text, lo, p, i - 1);
      assert !EndsBlock(text, i - 1);
    }
  }

  // A slash and a star in code open a comment up to the first star and slash behind them.
  lemma BlockCommentLasts(k: Chars, text: string, lo: nat, p: nat, end: nat)
    requires lo <= p && p + 2 <= end && EndsBlock(text, end)
    requires InCode(k, text, lo, p) && text[p] == '/' && text[p + 1] == '*'
    requires forall e :: p + 2 <= e < end ==> !EndsBlock(text, e)
    ensures forall i :: p < i <= end + 1 ==> !InCode(k, text, lo, i)
    ensures LexAt(k, text, lo, end + 2) == LexAt(k, text, lo, p)
  {
    BlockCommentGoesOn(k, text, lo, p, end);
    assert LexAt(k, text, lo, end + 1) == Next(k, text, lo, end, LexAt(k, text, lo, end));
    forall i | p < i <= end + 1
      ensures !InCode(k, text, lo, i)
    {
      if p + 2 <= i <= end { BlockCommentGoesOn(k, text, lo, p, i); }
    }
  }

  /******* Regular expressions *******/

  // In front of position i the expression opened at p is inside a class: a bracket opened one,
  // and none has closed it since.
  ghost predicate InClass(text: string, p: nat, i: nat)
    requires p < i <= |text|
  {
    exists j :: p < j < i && text[j] == '[' && !Escaped(text, p + 1, j) && StaysInClass(text, p, j, i)
  }

  ghost predicate StaysInClass(text: string, p: nat, j: nat, i: nat)
    requires p < j <= i <= |text|
  {
    forall c :: j < c < i && text[c] == ']' ==> Escaped(text, p + 1, c)
  }

  // The slash at e ends it: not escaped, and outside a class.
  ghost predicate EndsRegex(text: string, p: nat, e: nat) {
    p < e < |text| && text[e] == '/' && !Escaped(text, p + 1, e) && !InClass(text, p, e)
  }

  lemma InClassStep(text: string, p: nat, i: nat)
    requires p < i < |text|
    ensures !InClass(text, p, p + 1)
    ensures InClass(text, p, i + 1)
            <==> if Escaped(text, p + 1, i) then InClass(text, p, i)
                 else text[i] == '[' || (text[i] != ']' && InClass(text, p, i))
  {
    if InClass(text, p, i + 1) {
      var j :| && p < j < i + 1 && text[j] == '[' && !Escaped(text, p + 1, j) && StaysInClass(text, p, j, i + 1);
      if j < i { assert StaysInClass(text, p, j, i); }
    }
    if InClass(text, p, i) && (Escaped(text, p + 1, i) || text[i] != ']') {
      var j :| p < j < i && text[j] == '[' && !Escaped(text, p + 1, j) && StaysInClass(text, p, j, i);
      assert StaysInClass(text, p, j, i + 1);
    }
    if !Escaped(text, p + 1, i) && text[i] == '[' {
      assert StaysInClass(text, p, i, i + 1);
    }
  }

  lemma {:induction false} RegexGoesOn(k: Chars, text: string, lo: nat, p: nat, i: nat)
    requires lo <= p < i <= |text| && LexAt(k, text, lo, p + 1) == Lex(Regex(false, false), LexAt(k, text, lo, p).last)
    requires forall e :: p < e < i ==> !EndsRegex(text, p, e)
    ensures LexAt(k, text, lo, i)
            == Lex(Regex(Escaped(text, p + 1, i), InClass(text, p, i)), LexAt(k, text, lo, p).last)
    decreases i - p
  {
    if i == p + 1 {
      assert !InClass(text, p, p + 1);
    } else {
      RegexGoesOn(k, text, lo, p, i - 1);
      EscapedStep(text, p + 1, i - 1);
      InClassStep(text, p, i - 1);
      assert !EndsRegex(text, p, i - 1);
    }
  }

  // Once opened, a regular expression lasts up to the first slash that is neither escaped nor in
  // a class; code resumes behind it, with the slash as the last significant character.
  lemma RegexLasts(k: Chars, text: string, lo: nat, p: nat, end: nat)
    requires lo <= p < end < |text| && InCode(k, text, lo, p) && LexAt(k, text, lo, p + 1).mode.Regex?
    requires EndsRegex(text, p, end) && forall e :: p < e < end ==> !EndsRegex(text, p, e)
    ensures forall i :: p < i <= end ==> LexAt(k, text, lo, i).mode.Regex?
    ensures LexAt(k, text, lo, end + 1) == Lex(Code, Some('/'))
  {
    assert LexAt(k, text, lo, p + 1) == Next(k, text, lo, p, LexAt(k, text, lo, p));
    forall i | p < i <= end
      ensures LexAt(k, text, lo, i).mode.Regex?
    {
      RegexGoesOn(k, text, lo, p, i);
    }
    RegexGoesOn(k, text, lo, p, end);
  }

  /******* What opens what *******/

  // The character at p counts as significant: it is met in code and opens nothing, or it is the
  // slash that ends a regular expression.
  predicate Significant(k: Chars, text: string, lo: nat, p: nat)
    requires lo <= p < |text|
  {
    && InCode(k, text, lo, p + 1)
    && ((InCode(k, text, lo, p) && !k.isSpace(text[p])) || LexAt(k, text, lo, p).mode.Regex?)
  }

  ghost predicate IsLastSignificant(k: Chars, text: string, lo: nat, p: nat, last: Option<char>)
    requires lo <= p <= |text|
  {
    match last
    case None => forall j :: lo <= j < p ==> !Significant(k, text, lo, j)
    case Some(c) => exists j :: && lo <= j < p && text[j] == c && Significant(k, text, lo, j)
                                && forall l :: j < l < p ==> !Significant(k, text, lo, l)
  }

  lemma LastStays(k: Chars, text: string, lo: nat, p: nat, last: Option<char>)
    requires lo <= p < |text| && IsLastSignificant(k, text, lo, p, last) && !Significant(k, text, lo, p)
    ensures IsLastSignificant(k, text, lo, p + 1, last)
  {
    if last.Some? {
      var j :| && lo <= j < p && text[j] == last.value && Significant(k, text, lo, j)
               && forall l :: j < l < p ==> !Significant(k, text, lo, l);
      assert forall l :: j < l < p + 1 ==> !Significant(k, text, lo, l);
    }
  }

  lemma LastIsNew(k: Chars, text: string, lo: nat, p: nat)
    requires lo <= p < |text| && Significant(k, text, lo, p)
    ensures IsLastSignificant(k, text, lo, p + 1, Some(text[p]))
  {
  }

  // The scanner's last significant character is the last one of the text in front of it.
  lemma {:induction false} LastIsSignificant(k: Chars, text: string, lo: nat, p: nat)
    requires lo <= p <= |text|
    ensures IsLastSignificant(k, text, lo, p, LexAt(k, text, lo, p).last)
    decreases p - lo
  {
    if p > lo {
      LastIsSignificant(k, text, lo, p - 1);
      LastStep(k, text, lo, p - 1);
      if Significant(k, text, lo, p - 1) {
        LastIsNew(k, text, lo, p - 1);
      } else {
        LastStays(k, text, lo, p - 1, LexAt(k, text, lo, p - 1).last);
      }
    }
  }

  lemma LastStep(k: Chars, text: string, lo: nat, p: nat)
    requires lo <= p < |text|
    ensures LexAt(k, text, lo, p + 1).last
            == if Significant(k, text, lo, p) then Some(text[p]) else LexAt(k, text, lo, p).last
  {
    assert LexAt(k, text, lo, p + 1) == Next(k, text, lo, p, LexAt(k, text, lo, p));
  }

  // A slash in code opens a regular expression, unless it opens a comment, exactly where no
  // value can stand in front of it: at the start, behind an operator, or behind a keyword.
  predicate RegexPosition(k: Chars, text: string, lo: nat, p: nat, last: Option<char>)
    requires lo <= p <= |text|
  {
    || last.None?
    || last.value == '(' || last.value == '[' || last.value == '{' || last.value == ':' || last.value == ';'
    || last.value == ',' || last.value == '=' || last.value == '!' || last.value == '?' || last.value == '&'
    || last.value == '|' || last.value == '+' || last.value == '-' || last.value == '*' || last.value == '%'
    || last.value == '^' || last.value == '~' || last.value == '<' || last.value == '>'
    || k.endsWithKeyword(text[Max(lo, p - 20)..p])
  }

  lemma OperatorsAre(c: char)
    ensures c in OPERATORS
            <==> || c == '(' || c == '[' || c == '{' || c == ':' || c == ';' || c == ',' || c == '=' || c == '!'
                 || c == '?' || c == '&' || c == '|' || c == '+' || c == '-' || c == '*' || c == '%' || c == '^'
                 || c == '~' || c == '<' || c == '>'
  {
    assert OPERATORS == "([{:;,=!?&|+" + "-*%^~<>";
  }

  // What the next mode of code is, and that nothing else leaves it.
  lemma CodeLeavesExactly(k: Chars, text: string, lo: nat, p: nat)
    requires lo <= p < |text| && InCode(k, text, lo, p)
    ensures var next, last := LexAt(k, text, lo, p + 1).mode, LexAt(k, text, lo, p).last;
            var slashed := p + 1 < |text| && text[p] == '/';
            && (next == Skipped(LineComment) <==> slashed && text[p + 1] == '/')
            && (next == Skipped(BlockComment) <==> slashed && text[p + 1] == '*')
            && (next.Quoted? <==> IsMark(text[p]))
            && (next.Regex? <==> text[p] == '/' && !(slashed && (text[p + 1] == '/' || text[p + 1] == '*'))
                                 && RegexPosition(k, text, lo, p, last))
            && (next.Code? || next.Quoted? || next.Regex?
                || next == Skipped(LineComment) || next == Skipped(BlockComment))
  {
    if LexAt(k, text, lo, p).last.Some? { OperatorsAre(LexAt(k, text, lo, p).last.value); }
    assert LexAt(k, text, lo, p + 1) == Next(k, text, lo, p, LexAt(k, text, lo, p));
  }

  /******* Depth *******/

  // The braces met in code between two positions.
  function CodeBraces(k: Chars, text: string, lo: nat, i: nat, brace: char): set<int>
    requires lo <= i <= |text|
  {
    set j | lo <= j < i && InCode(k, text, lo, j) && text[j] == brace
  }

  lemma {:induction false} DepthCountsBraces(k: Chars, text: string, lo: nat, i: nat)
    requires lo <= i <= |text|
    ensures Depth(k, text, lo, i) == |CodeBraces(k, text, lo, i, '{')| - |CodeBraces(k, text, lo, i, '}')|
    decreases i - lo
  {
    if i > lo {
      DepthCountsBraces(k, text, lo, i - 1);
      OneMoreBrace(k, text, lo, i - 1, '{');
      OneMoreBrace(k, text, lo, i - 1, '}');
    }
  }

  lemma OneMoreBrace(k: Chars, text: string, lo: nat, i: nat, brace: char)
    requires lo <= i < |text|
    ensures |CodeBraces(k, text, lo, i + 1, brace)|
            == |CodeBraces(k, text, lo, i, brace)| + if InCode(k, text, lo, i) && text[i] == brace then 1 else 0
  {
    var before, after := CodeBraces(k, text, lo, i, brace), CodeBraces(k, text, lo, i + 1, brace);
    assert after == before + if InCode(k, text, lo, i) && text[i] == brace then {i} else {};
  }

  // An escaped mark does not end its string: the brace behind it is text.
  lemma EscapedMarkStays(k: Chars, text: string)
    requires text == "{\"\\\"}\"}"
    ensures IsFunctionEnd(k, text, 0, 7)
  {
    assert Next(k, text, 0, 0, Lex(Code, None)).mode == Code;
    assert InCode(k, text, 0, 1) && IsMark(text[1]);
    assert Backslashes(text, 2, 2) == 0 && Backslashes(text, 2, 3) == 1;
    assert Backslashes(text, 2, 4) == 0 && Backslashes(text, 2, 5) == 0;
    assert EndsString(text, 1, 5);
    StringLasts(k, text, 0, 1, 5);
    assert InCode(k, text, 0, 6);
    assert Depth(k, text, 0, 1) == 1 && Depth(k, text, 0, 2) == 1 && Depth(k, text, 0, 3) == 1;
    assert Depth(k, text, 0, 4) == 1 && Depth(k, text, 0, 5) == 1 && Depth(k, text, 0, 6) == 1;
    assert Depth(k, text, 0, 7) == 0;
  }
}
