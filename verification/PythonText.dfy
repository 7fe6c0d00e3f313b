/**
 The Python string operations the edit compiler relies on: `str.find`, the
 non-overlapping `str.count`, and `str.replace(find, replacement, 1)`.
 */
module PythonText {

  ghost predicate OccursAt(s: string, sub: string, i: int) {
    0 <= i && i + |sub| <= |s| && s[i..i + |sub|] == sub
  }

  // str.find(sub, from)
  function Find(s: string, sub: string, from: nat): (p: int)
    ensures p == -1 || from <= p <= |s| - |sub|
    decreases |s| - from
  {
    if from + |sub| > |s| then -1
    else if s[from..from + |sub|] == sub then from
    else Find(s, sub, from + 1)
  }

  lemma {:induction false} FindIsLeftmost(s: string, sub: string, from: nat)
    ensures Find(s, sub, from) >= 0 ==> OccursAt(s, sub, Find(s, sub, from))
    ensures forall i :: from <= i && OccursAt(s, sub, i) ==> 0 <= Find(s, sub, from) <= i
    decreases |s| - from
  {
    if from + |sub| <= |s| && s[from..from + |sub|] != sub {
      FindIsLeftmost(s, sub, from + 1);
    }
  }

  // str.count(sub) restricted to s[from..]: after a hit the scan resumes behind it.
  function Count(s: string, sub: string, from: nat): nat
    requires sub != ""
    decreases |s| - from
  {
    var p := Find(s, sub, from);
    if p < 0 then 0 else 1 + Count(s, sub, p + |sub|)
  }

  // s with the `width` characters at `at` replaced.
  function Splice(s: string, at: nat, width: nat, replacement: string): string
    requires at + width <= |s|
  {
    s[..at] + replacement + s[at + width..]
  }

  // str.replace(sub, replacement, 1)
  function ReplaceFirst(s: string, sub: string, replacement: string): string {
    var p := Find(s, sub, 0);
    if p < 0 then s else Splice(s, p, |sub|, replacement)
  }

  ghost predicate OnlyOverlappingOccurrences(s: string, sub: string, first: int) {
    OccursAt(s, sub, first) && forall i :: OccursAt(s, sub, i) ==> first <= i < first + |sub|
  }

  // A count of one does not mean a single occurrence: it means that every other
  // occurrence overlaps the leftmost one.
  lemma CountOneMeansOverlap(s: string, sub: string)
    requires sub != ""
    ensures Count(s, sub, 0) == 1 <==> exists first :: OnlyOverlappingOccurrences(s, sub, first)
  {
    FindIsLeftmost(s, sub, 0);
    var p := Find(s, sub, 0);
    if p >= 0 {
      var next := p + |sub|;
      FindIsLeftmost(s, sub, next);
      CountsAgain(s, sub);
      if Find(s, sub, next) < 0 {
        assert OnlyOverlappingOccurrences(s, sub, p);
      } else {
        ApartHits(s, sub, p, Find(s, sub, next));
      }
    }
  }

  lemma ApartHits(s: string, sub: string, p: int, q: int)
    requires OccursAt(s, sub, p) && OccursAt(s, sub, q) && p + |sub| <= q
    ensures !exists first :: OnlyOverlappingOccurrences(s, sub, first)
  {
  }

  lemma CountsAgain(s: string, sub: string)
    requires sub != "" && Find(s, sub, 0) >= 0
    ensures Count(s, sub, 0) == 1 <==> Find(s, sub, Find(s, sub, 0) + |sub|) < 0
  {
    assert Count(s, sub, 0) == 1 + Count(s, sub, Find(s, sub, 0) + |sub|);
  }

  // The whole text occurs in itself exactly once.
  lemma WholeTextIsUnique(s: string)
    requires s != ""
    ensures Count(s, s, 0) == 1
  {
  }

  lemma TargetOverlapsFirst(s: string, sub: string, target: nat)
    requires sub != "" && Count(s, sub, 0) == 1 && OccursAt(s, sub, target)
    ensures OccursAt(s, sub, Find(s, sub, 0))
    ensures 0 <= Find(s, sub, 0) <= target < Find(s, sub, 0) + |sub|
  {
    FindIsLeftmost(s, sub, 0);
    CountOneMeansOverlap(s, sub);
    var first :| OnlyOverlappingOccurrences(s, sub, first);
    assert OccursAt(s, sub, first);
  }

  // `replacement` repeats when shifted by d, as `sub` does when it overlaps itself by d.
  predicate RepeatsWithShift(sub: string, replacement: string, d: nat)
    requires d <= |sub|
  {
    sub[..d] + replacement == replacement + sub[|sub| - d..]
  }

  // Replacing the first occurrence edits the intended one at `target` exactly when
  // the replacement repeats with the shift between the two.
  lemma FirstReplaceHitsTarget(s: string, sub: string, replacement: string, target: nat)
    requires sub != "" && Count(s, sub, 0) == 1 && OccursAt(s, sub, target)
    ensures 0 <= Find(s, sub, 0) <= target < Find(s, sub, 0) + |sub|
    ensures ReplaceFirst(s, sub, replacement) == Splice(s, target, |sub|, replacement)
            <==> RepeatsWithShift(sub, replacement, target - Find(s, sub, 0))
  {
    TargetOverlapsFirst(s, sub, target);
    SpliceAtEitherCopy(s, sub, replacement, Find(s, sub, 0), target);
  }

  lemma SpliceAtEitherCopy(s: string, sub: string, replacement: string, first: nat, target: nat)
    requires OccursAt(s, sub, first) && OccursAt(s, sub, target) && first <= target <= first + |sub|
    ensures Splice(s, first, |sub|, replacement) == Splice(s, target, |sub|, replacement)
            <==> RepeatsWithShift(sub, replacement, target - first)
  {
    ShiftedCopies(s, sub, first, target);
    ShiftedSplices(s, first, target - first, |sub|, replacement);
  }

  lemma ShiftedCopies(s: string, sub: string, first: nat, target: nat)
    requires OccursAt(s, sub, first) && OccursAt(s, sub, target) && first <= target <= first + |sub|
    ensures s[first..target] == sub[..target - first]
    ensures s[first + |sub|..target + |sub|] == sub[|sub| - (target - first)..]
  {
  }

  // Two equally wide replacements `d` apart give the same text exactly when the
  // replacement commutes with the text between them.
  lemma ShiftedSplices(s: string, at: nat, d: nat, width: nat, replacement: string)
    requires at + d + width <= |s|
    ensures Splice(s, at, width, replacement) == Splice(s, at + d, width, replacement)
            <==> s[at..at + d] + replacement == replacement + s[at + width..at + d + width]
  {
    var head, tail := s[..at], s[at + d + width..];
    var left, right := s[at..at + d] + replacement, replacement + s[at + width..at + d + width];
    assert Splice(s, at, width, replacement) == head + right + tail by {
      assert s[at + width..] == s[at + width..at + d + width] + tail;
    }
    assert Splice(s, at + d, width, replacement) == head + left + tail by {
      assert s[..at + d] == head + s[at..at + d];
    }
    Cancel(head, left, right, tail);
  }

  lemma Cancel(head: string, a: string, b: string, tail: string)
    requires |a| == |b|
    ensures head + a + tail == head + b + tail <==> a == b
  {
    assert (head + a + tail)[|head|..|head| + |a|] == a;
    assert (head + b + tail)[|head|..|head| + |b|] == b;
  }

  lemma SliceOfSlice(s: string, i: nat, j: nat, p: nat, q: nat)
    requires i <= j <= |s| && p <= q <= j - i
    ensures s[i..j][p..q] == s[i + p..i + q]
  {
    forall k | 0 <= k < q - p
      ensures s[i..j][p..q][k] == s[i + p..i + q][k]
    {
      assert s[i..j][p..q][k] == s[i..j][p + k];
    }
  }

  // Editing the middle of an occurrence, or editing the occurrence while keeping its
  // two ends, is the same edit.
  lemma SpliceInside(s: string, at: nat, before: string, mid: string, after: string, replacement: string, i: nat)
    requires OccursAt(s, before + mid + after, at) && i == at + |before|
    ensures OccursAt(s, mid, i)
    ensures Splice(s, i, |mid|, replacement) == Splice(s, at, |before + mid + after|, before + replacement + after)
  {
    var all, end := before + mid + after, at + |before + mid + after|;
    var j := i + |mid|;
    SliceOfSlice(s, at, end, 0, |before|);
    SliceOfSlice(s, at, end, |before|, |before| + |mid|);
    SliceOfSlice(s, at, end, |before| + |mid|, |all|);
    assert s[at..i] == before && s[i..j] == mid && s[j..end] == after;
    assert s[..i] == s[..at] + before;
    assert s[j..] == after + s[end..];
  }

  /******* Numbers as text *******/

  function Decimal(n: nat): string {
    if n < 10 then [('0' as int + n) as char] else Decimal(n / 10) + [('0' as int + n % 10) as char]
  }

  lemma {:induction false} DecimalIsInjective(m: nat, n: nat)
    requires Decimal(m) == Decimal(n)
    ensures m == n
  {
    if m < 10 && n < 10 {
      assert Decimal(m)[0] == Decimal(n)[0];
    } else if m >= 10 && n >= 10 {
      var a, b := Decimal(m / 10), Decimal(n / 10);
      assert a == Decimal(m)[..|a|] && b == Decimal(n)[..|b|];
      assert Decimal(m)[|a|] == Decimal(n)[|b|];
      DecimalIsInjective(m / 10, n / 10);
    } else {
      DecimalIsNotEmpty(if m < 10 then n / 10 else m / 10);
    }
  }

  lemma {:induction false} DecimalIsNotEmpty(n: nat)
    ensures Decimal(n) != []
  {
  }
}
