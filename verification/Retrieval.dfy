/**
 Retrieval arithmetic: cosine over token counts, Jaccard over label sets, and a ranking in
 which structure dominates and wording breaks ties. Numbers are exact; the square root is
 left to the squared equation it solves.
 */
module Retrieval {
  import opened Basics
  import opened Ranking

  /******* Sums *******/

  function Sum(keys: seq<string>, term: string -> int): int {
    if keys == [] then 0 else Sum(keys[..|keys| - 1], term) + term(keys[|keys| - 1])
  }

  // Token counts; a token that does not occur counts zero.
  datatype Counter = Counter(tokens: seq<string>, counts: map<string, nat>)

  ghost predicate IsCounter(c: Counter) {
    && Distinct(c.tokens)
    && (forall t :: t in c.tokens <==> t in c.counts)
    && (forall t :: t in c.counts ==> c.counts[t] > 0)
  }

  function Count(c: Counter, t: string): nat {
    if t in c.counts then c.counts[t] else 0
  }

  // One more of the token.
  function Bumped(c: Counter, t: string): Counter {
    Counter(if t in c.counts then c.tokens else c.tokens + [t], c.counts[t := Count(c, t) + 1])
  }

  // The counter of these words.
  ghost predicate Counts(c: Counter, words: seq<string>) {
    IsCounter(c) && forall t :: Count(c, t) == multiset(words)[t]
  }

  lemma NextCounted(c: Counter, words: seq<string>, t: string)
    requires Counts(c, words)
    ensures Counts(Bumped(c, t), words + [t])
  {
  }

  method CountTokens(words: seq<string>) returns (c: Counter)
    ensures Counts(c, words)
  {
    c := Counter([], map[]);
    for i := 0 to |words|
      invariant Counts(c, words[..i])
    {
      assert words[..i + 1] == words[..i] + [words[i]];
      NextCounted(c, words[..i], words[i]);
      c := Bumped(c, words[i]);
    }
    assert words[..|words|] == words;
  }

  function Product(a: Counter, b: Counter): string -> int {
    (t: string) => Count(a, t) * Count(b, t)
  }

  // The tokens both counters have, in the order of the first.
  function Common(keys: seq<string>, b: Counter): seq<string> {
    if keys == [] then []
    else Common(keys[..|keys| - 1], b) + if keys[|keys| - 1] in b.counts then [keys[|keys| - 1]] else []
  }

  function Dot(a: Counter, b: Counter): int {
    Sum(Common(a.tokens, b), Product(a, b))
  }

  function SquaredNorm(a: Counter): int {
    Sum(a.tokens, Product(a, a))
  }

  /******* The inequality of Cauchy and Schwarz *******/

  // The sum of (x(k) * v - u * y(k)) squared.
  function Gap(keys: seq<string>, a: Counter, b: Counter, u: int, v: int): int {
    if keys == [] then 0
    else
      var k := keys[|keys| - 1];
      var d := Count(a, k) * v - u * Count(b, k);
      Gap(keys[..|keys| - 1], a, b, u, v) + d * d
  }

  lemma GapStep(x: int, y: int, u: int, v: int, xx: int, xy: int, yy: int)
    ensures v * v * xx - 2 * u * v * xy + u * u * yy + (x * v - u * y) * (x * v - u * y)
            == v * v * (xx + x * x) - 2 * u * v * (xy + x * y) + u * u * (yy + y * y)
  {
  }

  lemma {:induction false} GapIs(keys: seq<string>, a: Counter, b: Counter, u: int, v: int)
    ensures Gap(keys, a, b, u, v)
            == v * v * Sum(keys, Product(a, a)) - 2 * u * v * Sum(keys, Product(a, b))
              + u * u * Sum(keys, Product(b, b))
    ensures Gap(keys, a, b, u, v) >= 0
  {
    if keys != [] {
      var front, k := keys[..|keys| - 1], keys[|keys| - 1];
      GapIs(front, a, b, u, v);
      GapStep(Count(a, k), Count(b, k), u, v, Sum(front, Product(a, a)), Sum(front, Product(a, b)),
              Sum(front, Product(b, b)));
      NonNegativeSquare(Count(a, k) * v - u * Count(b, k));
    }
  }

  lemma NonNegativeSquare(d: int)
    ensures d * d >= 0
  {
  }

  lemma CauchyStep(x: int, y: int, xx: int, xy: int, yy: int)
    requires xy * xy <= xx * yy
    requires y * y * xx - 2 * x * y * xy + x * x * yy >= 0
    ensures (xy + x * y) * (xy + x * y) <= (xx + x * x) * (yy + y * y)
  {
  }

  lemma {:induction false} CauchySchwarz(keys: seq<string>, a: Counter, b: Counter)
    ensures Sum(keys, Product(a, b)) * Sum(keys, Product(a, b)) <= Sum(keys, Product(a, a)) * Sum(keys, Product(b, b))
  {
    if keys != [] {
      var front, k := keys[..|keys| - 1], keys[|keys| - 1];
      CauchySchwarz(front, a, b);
      GapIs(front, a, b, Count(a, k), Count(b, k));
      CauchyStep(Count(a, k), Count(b, k), Sum(front, Product(a, a)), Sum(front, Product(a, b)),
                 Sum(front, Product(b, b)));
    }
  }

  /******* Cosine *******/

  lemma SumOfOneMore(front: seq<string>, last: string, term: string -> int)
    ensures Sum(front + [last], term) == Sum(front, term) + term(last)
  {
  }

  lemma {:induction false} CommonSum(keys: seq<string>, a: Counter, b: Counter)
    ensures Sum(Common(keys, b), Product(a, b)) == Sum(keys, Product(a, b))
    ensures Sum(Common(keys, b), Product(b, b)) == Sum(keys, Product(b, b))
  {
    if keys != [] {
      var front, last := keys[..|keys| - 1], keys[|keys| - 1];
      CommonSum(front, a, b);
      if last in b.counts {
        SumOfOneMore(Common(front, b), last, Product(a, b));
        SumOfOneMore(Common(front, b), last, Product(b, b));
      } else {
        assert Common(keys, b) == Common(front, b);
      }
    }
  }

  lemma {:induction false} CommonHolds(keys: seq<string>, b: Counter)
    ensures forall t :: t in Common(keys, b) <==> t in keys && t in b.counts
    ensures Distinct(keys) ==> Distinct(Common(keys, b))
  {
    if keys != [] {
      CommonHolds(keys[..|keys| - 1], b);
      assert keys == keys[..|keys| - 1] + [keys[|keys| - 1]];
    }
  }

  lemma {:induction false} SumWithout(keys: seq<string>, i: nat, term: string -> int)
    requires i < |keys|
    ensures Sum(keys, term) == Sum(keys[..i] + keys[i + 1..], term) + term(keys[i])
  {
    var front, last := keys[..|keys| - 1], keys[|keys| - 1];
    if i < |front| {
      SumWithout(front, i, term);
      SumOfOneMore(front[..i] + front[i + 1..], last, term);
      assert keys[..i] + keys[i + 1..] == front[..i] + front[i + 1..] + [last];
    } else {
      assert keys[..i] + keys[i + 1..] == front;
    }
  }

  lemma {:induction false} SumIsNonNegative(keys: seq<string>, term: string -> int)
    requires forall t :: term(t) >= 0
    ensures Sum(keys, term) >= 0
  {
    if keys != [] { SumIsNonNegative(keys[..|keys| - 1], term); }
  }

  lemma {:induction false} SubsetSum(part: seq<string>, all: seq<string>, term: string -> int)
    requires Distinct(part) && (forall t :: t in part ==> t in all) && forall t :: term(t) >= 0
    ensures Sum(part, term) <= Sum(all, term)
    decreases |part|
  {
    if part == [] {
      SumIsNonNegative(all, term);
    } else {
      var front, last := part[..|part| - 1], part[|part| - 1];
      assert last in all;
      var i :| 0 <= i < |all| && all[i] == last;
      SumWithout(all, i, term);
      forall t | t in front
        ensures t in all[..i] + all[i + 1..]
      {
        assert t in all && t != last;
      }
      SubsetSum(front, all[..i] + all[i + 1..], term);
    }
  }

  lemma SquaresAreNonNegative(b: Counter)
    ensures forall t :: Product(b, b)(t) >= 0
  {
  }

  lemma DotIsNonNegative(a: Counter, b: Counter)
    requires IsCounter(a) && IsCounter(b)
    ensures Dot(a, b) >= 0 && SquaredNorm(a) >= 0
  {
    SquaresAreNonNegative(a);
    SumIsNonNegative(a.tokens, Product(a, a));
    SumIsNonNegative(Common(a.tokens, b), Product(a, b));
  }

  lemma SharedNormIsSmaller(a: Counter, b: Counter)
    requires IsCounter(a) && IsCounter(b)
    ensures Sum(a.tokens, Product(b, b)) <= SquaredNorm(b)
  {
    CommonSum(a.tokens, a, b);
    CommonHolds(a.tokens, b);
    SquaresAreNonNegative(b);
    SubsetSum(Common(a.tokens, b), b.tokens, Product(b, b));
  }

  lemma DotIsBounded(a: Counter, b: Counter)
    requires IsCounter(a) && IsCounter(b)
    ensures Dot(a, b) * Dot(a, b) <= SquaredNorm(a) * SquaredNorm(b)
    ensures Dot(a, b) >= 0 && SquaredNorm(a) >= 0 && SquaredNorm(b) >= 0
  {
    DotIsNonNegative(a, b);
    DotIsNonNegative(b, a);
    CommonSum(a.tokens, a, b);
    CauchySchwarz(a.tokens, a, b);
    SharedNormIsSmaller(a, b);
    Larger(SquaredNorm(a), Sum(a.tokens, Product(b, b)), SquaredNorm(b));
  }

  lemma Larger(x: int, y: int, z: int)
    requires x >= 0 && y <= z
    ensures x * y <= x * z
  {
  }

  // c is the cosine of a and b: the quotient of the dot product by the root of the norms,
  // and zero when a counter is empty.
  ghost predicate IsCosine(c: real, a: Counter, b: Counter) {
    IsQuotient(c, Dot(a, b), SquaredNorm(a), SquaredNorm(b))
  }

  ghost predicate IsQuotient(c: real, dot: int, n: int, m: int) {
    c >= 0.0 && if n == 0 || m == 0 then c == 0.0 else c * c * (n * m) as real == (dot * dot) as real
  }

  lemma UnitSquare(c: real, n: real, d: real)
    requires c >= 0.0 && n > 0.0 && c * c * n == d && d <= n
    ensures c <= 1.0
  {
  }

  // Whatever the token counts, the cosine lies between zero and one.
  lemma CosineIsInUnit(c: real, a: Counter, b: Counter)
    requires IsCounter(a) && IsCounter(b) && IsCosine(c, a, b)
    ensures 0.0 <= c <= 1.0
  {
    DotIsBounded(a, b);
    if SquaredNorm(a) != 0 && SquaredNorm(b) != 0 {
      var n := SquaredNorm(a) * SquaredNorm(b);
      assert n > 0;
      UnitSquare(c, n as real, (Dot(a, b) * Dot(a, b)) as real);
    }
  }

  lemma NormOfSome(a: Counter)
    requires IsCounter(a) && a.tokens != []
    ensures SquaredNorm(a) > 0
  {
    var n := |a.tokens| - 1;
    SquaresAreNonNegative(a);
    SumIsNonNegative(a.tokens[..n], Product(a, a));
    assert a.tokens[n] in a.tokens;
    assert Count(a, a.tokens[n]) > 0;
    PositiveProduct(Count(a, a.tokens[n]), Count(a, a.tokens[n]));
  }

  lemma PositiveProduct(x: int, y: int)
    requires x > 0 && y > 0
    ensures x * y > 0
  {
  }

  // The extremes: equal wording scores one, and zero means no shared token.
  lemma CosineExtremes(c: real, a: Counter, b: Counter)
    requires IsCounter(a) && IsCounter(b) && IsCosine(c, a, b)
    ensures a == b && a.tokens != [] ==> c == 1.0
    ensures c == 0.0 <==> Common(a.tokens, b) == []
  {
    DotIsBounded(a, b);
    CosineOfSelf(c, a, b);
    if Common(a.tokens, b) != [] {
      SharedTokenCounts(a, b);
      assert (Dot(a, b) * Dot(a, b)) as real > 0.0 by { PositiveProduct(Dot(a, b), Dot(a, b)); }
    } else if SquaredNorm(a) != 0 && SquaredNorm(b) != 0 {
      ZeroRoot(c, (SquaredNorm(a) * SquaredNorm(b)) as real);
    }
  }

  lemma ZeroRoot(c: real, n: real)
    requires n != 0.0 && c * c * n == 0.0
    ensures c == 0.0
  {
    Unscaled(c * c, n);
    if c != 0.0 { Unscaled(c, c); }
  }

  lemma Unscaled(x: real, n: real)
    requires n != 0.0
    ensures x * n == 0.0 ==> x == 0.0
    ensures x * n == n ==> x == 1.0
  {
  }

  lemma CosineOfSelf(c: real, a: Counter, b: Counter)
    requires IsCounter(a) && IsCounter(b) && IsCosine(c, a, b)
    ensures a == b && a.tokens != [] ==> c == 1.0
  {
    if a == b && a.tokens != [] {
      NormOfSome(a);
      CommonSum(a.tokens, a, a);
      assert Dot(a, b) == SquaredNorm(a);
      QuotientOfSelf(c, SquaredNorm(a));
    }
  }

  lemma QuotientOfSelf(c: real, n: int)
    requires n > 0 && IsQuotient(c, n, n, n)
    ensures c == 1.0
  {
    PositiveProduct(n, n);
    UnitRoot(c, (n * n) as real);
  }

  lemma UnitRoot(c: real, n: real)
    requires c >= 0.0 && n > 0.0 && c * c * n == n
    ensures c == 1.0
  {
    Unscaled(c * c, n);
    assert (c - 1.0) * (c + 1.0) == c * c - 1.0;
    Unscaled(c - 1.0, c + 1.0);
  }

  lemma SharedTokenCounts(a: Counter, b: Counter)
    requires IsCounter(a) && IsCounter(b) && Common(a.tokens, b) != []
    ensures Dot(a, b) > 0 && SquaredNorm(a) > 0 && SquaredNorm(b) > 0
  {
    CommonHolds(a.tokens, b);
    var common := Common(a.tokens, b);
    var t := common[|common| - 1];
    assert t in common && t in a.tokens && t in b.tokens;
    NormOfSome(a);
    NormOfSome(b);
    SumIsNonNegative(common[..|common| - 1], Product(a, b));
    PositiveProduct(Count(a, t), Count(b, t));
  }

  /******* Jaccard and the structural score *******/

  function Jaccard(a: set<string>, b: set<string>): (score: real)
    ensures 0.0 <= score <= 1.0
    ensures score == 0.0 <==> a !! b
    ensures score == 1.0 <==> a == b && a != {}
  {
    if a == {} || b == {} then 0.0
    else
      JaccardParts(a, b);
      |a * b| as real / |a + b| as real
  }

  lemma JaccardParts(a: set<string>, b: set<string>)
    requires a != {} && b != {}
    ensures 0 <= |a * b| <= |a + b| && |a + b| > 0
    ensures |a * b| == 0 <==> a !! b
    ensures |a * b| == |a + b| <==> a == b
    ensures 0.0 <= |a * b| as real / |a + b| as real <= 1.0
    ensures |a * b| as real / |a + b| as real == 1.0 <==> |a * b| == |a + b|
    ensures |a * b| as real / |a + b| as real == 0.0 <==> |a * b| == 0
  {
    var both, all := a * b, a + b;
    assert all == both + (all - both) && |all| == |both| + |all - both|;
    assert |all - both| == 0 <==> all == both;
    assert all == both <==> a == b;
    assert all == a + (all - a) && |all| == |a| + |all - a|;
    Quotient(|both|, |all|);
  }

  lemma Quotient(x: nat, y: nat)
    requires x <= y && y > 0
    ensures 0.0 <= x as real / y as real <= 1.0
    ensures x as real / y as real == 1.0 <==> x == y
    ensures x as real / y as real == 0.0 <==> x == 0
  {
  }

  // The fields a score compares; text is case-folded and family descriptors are given.
  datatype Query = Query(failure: string, familyKey: string, archetype: string, symptoms: set<string>,
                         signals: set<string>, types: set<string>, provider: string)

  datatype Experience = Experience(failure: string, familyKey: string, archetype: string, result: string,
                                   symptoms: set<string>, signals: set<string>, types: set<string>,
                                   providers: set<string>, words: Counter)

  function Bonus(holds: bool, bonus: real): real {
    if holds then bonus else 0.0
  }

  function FamilyScore(q: Query, row: Experience): real {
    if q.familyKey != "" && q.familyKey == row.familyKey then 0.60 + Bonus(row.result == "validated", 0.25)
    else Bonus(q.archetype != "" && q.archetype == row.archetype, 0.30)
  }

  function FieldScore(q: Query, row: Experience): (score: real)
    ensures 0.0 <= score <= 1.85
  {
    Bonus(q.failure != "" && q.failure == row.failure, 0.45)
    + FamilyScore(q, row)
    + 0.20 * Jaccard(q.symptoms, row.symptoms)
    + 0.15 * Jaccard(q.signals, row.signals)
    + 0.08 * Jaccard(q.types, row.types)
    + Bonus(q.provider != "" && q.provider in row.providers, 0.12)
  }

  // What each field is worth on its own, whatever the other fields say. Text counts only if the query
  // has any.
  lemma FailureWeighs(q: Query, row: Experience)
    ensures FieldScore(q, row.(failure := q.failure)) - FieldScore(q, row.(failure := q.failure + "x"))
            == Bonus(q.failure != "", 0.45)
  {
    Differs(q.failure);
  }

  lemma ProviderWeighs(q: Query, row: Experience)
    ensures FieldScore(q, row.(providers := row.providers + {q.provider}))
            - FieldScore(q, row.(providers := row.providers - {q.provider})) == Bonus(q.provider != "", 0.12)
  {
  }

  lemma SymptomsWeigh(q: Query, row: Experience)
    ensures FieldScore(q, row.(symptoms := q.symptoms)) - FieldScore(q, row.(symptoms := {}))
            == Bonus(q.symptoms != {}, 0.20)
  {
  }

  lemma SignalsWeigh(q: Query, row: Experience)
    ensures FieldScore(q, row.(signals := q.signals)) - FieldScore(q, row.(signals := {}))
            == Bonus(q.signals != {}, 0.15)
  {
  }

  lemma TypesWeigh(q: Query, row: Experience)
    ensures FieldScore(q, row.(types := q.types)) - FieldScore(q, row.(types := {})) == Bonus(q.types != {}, 0.08)
  {
  }

  // A family counts for more than its archetype, a validated one for more still.
  lemma FamilyWeighs(q: Query, row: Experience)
    requires q.familyKey != "" && row.familyKey == q.familyKey
    ensures FieldScore(q, row.(result := "validated")) - FieldScore(q, row.(result := "")) == 0.25
    ensures FieldScore(q, row.(result := "")) - FieldScore(q, row.(familyKey := "", archetype := q.archetype))
            == 0.60 - Bonus(q.archetype != "", 0.30)
  {
  }

  lemma NothingWeighsNothing(q: Query, words: Counter)
    ensures FieldScore(q, Experience("", "", "", "", {}, {}, {}, {}, words)) == 0.0
  {
  }

  lemma Differs(text: string)
    ensures text + "x" != text
  {
    assert |text + "x"| == |text| + 1;
  }

  /******* Ranking *******/

  const LEXICAL_WEIGHT := 0.18

  datatype Scored = Scored(score: real, structural: real, lexical: real, row: Experience)

  function ScoreOf(structural: real, lexical: real, row: Experience): Scored {
    Scored(structural + LEXICAL_WEIGHT * lexical, structural, lexical, row)
  }

  // By score, then structure, then wording, all descending.
  predicate Above(a: Scored, b: Scored) {
    || a.score > b.score
    || (a.score == b.score && (a.structural > b.structural || (a.structural == b.structural && a.lexical > b.lexical)))
  }

  // Stable: an item goes behind the ones it does not beat.
  function Inserted(ranked: seq<Scored>, item: Scored): seq<Scored> {
    if ranked == [] || !Above(item, ranked[|ranked| - 1]) then ranked + [item]
    else Inserted(ranked[..|ranked| - 1], item) + [ranked[|ranked| - 1]]
  }

  function Ranked(items: seq<Scored>): seq<Scored> {
    if items == [] then [] else Inserted(Ranked(items[..|items| - 1]), items[|items| - 1])
  }

  ghost predicate InOrder(ranked: seq<Scored>) {
    forall i, j :: 0 <= i < j < |ranked| ==> !Above(ranked[j], ranked[i])
  }

  lemma {:induction false} InsertedHolds(ranked: seq<Scored>, item: Scored)
    ensures multiset(Inserted(ranked, item)) == multiset(ranked) + multiset{item}
    ensures |Inserted(ranked, item)| == |ranked| + 1
    ensures forall x :: x in Inserted(ranked, item) <==> x in ranked || x == item
  {
    if ranked != [] && Above(item, ranked[|ranked| - 1]) {
      var front, last := ranked[..|ranked| - 1], ranked[|ranked| - 1];
      InsertedHolds(front, item);
      assert ranked == front + [last];
    }
  }

  lemma LastIsLowest(ranked: seq<Scored>, last: Scored)
    requires InOrder(ranked) && forall x :: x in ranked ==> !Above(last, x)
    ensures InOrder(ranked + [last])
  {
    var more := ranked + [last];
    forall i, j | 0 <= i < j < |more|
      ensures !Above(more[j], more[i])
    {
      assert more[i] == ranked[i] && ranked[i] in ranked;
    }
  }

  lemma {:induction false} InsertedIsInOrder(ranked: seq<Scored>, item: Scored)
    requires InOrder(ranked)
    ensures InOrder(Inserted(ranked, item))
  {
    if ranked == [] {
    } else {
      var front, last := ranked[..|ranked| - 1], ranked[|ranked| - 1];
      assert forall i :: 0 <= i < |front| ==> !Above(last, ranked[i]);
      if Above(item, last) {
        InsertedIsInOrder(front, item);
        InsertedHolds(front, item);
        LastIsLowest(Inserted(front, item), last);
      } else {
        assert forall i :: 0 <= i < |ranked| ==> !Above(item, ranked[i]);
        LastIsLowest(ranked, item);
      }
    }
  }

  lemma {:induction false} RankedIsInOrder(items: seq<Scored>)
    ensures InOrder(Ranked(items)) && multiset(Ranked(items)) == multiset(items)
  {
    if items != [] {
      var front, last := items[..|items| - 1], items[|items| - 1];
      RankedIsInOrder(front);
      InsertedIsInOrder(Ranked(front), last);
      InsertedHolds(Ranked(front), last);
      assert items == front + [last];
    }
  }

  // Wording moves a score by at most its weight, so it cannot overturn a structural gap of at
  // least that much; a smaller gap can be overturned.
  lemma StructureDominates(a: Experience, b: Experience, structuralA: real, structuralB: real)
    requires structuralA > structuralB
    ensures structuralA - structuralB >= LEXICAL_WEIGHT
            <==> forall x, y ::
                0.0 <= x <= 1.0 && 0.0 <= y <= 1.0 ==> Above(ScoreOf(structuralA, x, a), ScoreOf(structuralB, y, b))
  {
    if structuralA - structuralB < LEXICAL_WEIGHT {
      assert !Above(ScoreOf(structuralA, 0.0, a), ScoreOf(structuralB, 1.0, b));
    }
  }

  predicate SharesFailure(q: Query, row: Experience) {
    q.failure != "" && q.failure == row.failure
  }

  predicate SharesFamily(q: Query, row: Experience) {
    q.familyKey != "" && q.familyKey == row.familyKey
  }

  // A row of the same failure and family stands above any row that shares neither, whatever
  // else they share and whatever their wording.
  lemma SameFailureAndFamilyComeFirst(q: Query, a: Experience, b: Experience, x: real, y: real)
    requires SharesFailure(q, a) && SharesFamily(q, a) && !SharesFailure(q, b) && !SharesFamily(q, b)
    requires 0.0 <= x <= 1.0 && 0.0 <= y <= 1.0
    ensures FieldScore(q, a) - FieldScore(q, b) >= 0.20
    ensures Above(ScoreOf(FieldScore(q, a), x, a), ScoreOf(FieldScore(q, b), y, b))
  {
    assert FamilyScore(q, a) >= 0.60 && FamilyScore(q, b) <= 0.30;
    StructureDominates(a, b, FieldScore(q, a), FieldScore(q, b));
  }

  function Positive(ranked: seq<Scored>): seq<Scored> {
    if ranked == [] then []
    else Positive(ranked[..|ranked| - 1]) + if ranked[|ranked| - 1].score > 0.0 then [ranked[|ranked| - 1]] else []
  }

  // The search takes the cosine of each row as an input; lexical[i] belongs to rows[i].
  method Search(q: Query, rows: seq<Experience>, lexical: seq<real>, limit: nat) returns (found: seq<Scored>)
    requires |lexical| == |rows|
    ensures found == Found(q, rows, lexical, limit)
  {
    var scored: seq<Scored> := [];
    for i := 0 to |rows|
      invariant scored == AllScored(q, rows[..i], lexical[..i])
    {
      assert rows[..i + 1][..i] == rows[..i] && lexical[..i + 1][..i] == lexical[..i];
      scored := scored + [ScoreOf(FieldScore(q, rows[i]), lexical[i], rows[i])];
    }
    assert rows[..|rows|] == rows && lexical[..|rows|] == lexical;
    found := Positive(Take(Ranked(scored), limit));
  }

  function AllScored(q: Query, rows: seq<Experience>, lexical: seq<real>): seq<Scored>
    requires |lexical| == |rows|
  {
    if rows == [] then []
    else
      var n := |rows| - 1;
      AllScored(q, rows[..n], lexical[..n]) + [ScoreOf(FieldScore(q, rows[n]), lexical[n], rows[n])]
  }

  function Found(q: Query, rows: seq<Experience>, lexical: seq<real>, limit: nat): seq<Scored>
    requires |lexical| == |rows|
  {
    Positive(Take(Ranked(AllScored(q, rows, lexical)), limit))
  }

  ghost predicate WellScored(items: seq<Scored>) {
    forall i :: 0 <= i < |items| ==> items[i] == ScoreOf(items[i].structural, items[i].lexical, items[i].row)
                                     && 0.0 <= items[i].lexical <= 1.0
  }

  lemma {:induction false} ScoredWell(q: Query, rows: seq<Experience>, lexical: seq<real>)
    requires |lexical| == |rows| && forall i :: 0 <= i < |rows| ==> 0.0 <= lexical[i] <= 1.0
    ensures WellScored(AllScored(q, rows, lexical))
  {
    if rows != [] {
      var n := |rows| - 1;
      ScoredWell(q, rows[..n], lexical[..n]);
    }
  }

  // In the ranking no row stands behind one whose structure is lower by the weight or more.
  lemma RankingRespectsStructure(q: Query, rows: seq<Experience>, lexical: seq<real>, i: nat, j: nat)
    requires |lexical| == |rows| && forall k :: 0 <= k < |rows| ==> 0.0 <= lexical[k] <= 1.0
    ensures var ranked := Ranked(AllScored(q, rows, lexical));
            i < j < |ranked| ==> ranked[j].structural - ranked[i].structural < LEXICAL_WEIGHT
  {
    ScoredWell(q, rows, lexical);
    OrderRespectsStructure(AllScored(q, rows, lexical), i, j);
  }

  lemma OrderRespectsStructure(scored: seq<Scored>, i: nat, j: nat)
    requires WellScored(scored)
    ensures i < j < |Ranked(scored)| ==> Ranked(scored)[j].structural - Ranked(scored)[i].structural < LEXICAL_WEIGHT
  {
    var ranked := Ranked(scored);
    RankedIsInOrder(scored);
    if i < j < |ranked| {
      assert ranked[i] in multiset(scored) && ranked[j] in multiset(scored);
      var k :| 0 <= k < |scored| && scored[k] == ranked[i];
      var l :| 0 <= l < |scored| && scored[l] == ranked[j];
      assert !Above(ranked[j], ranked[i]);
    }
  }

  // The rows found are the first of the ranking, in its order, all with a positive score.
  lemma {:induction false} PositiveHolds(ranked: seq<Scored>)
    ensures InOrder(ranked) ==> InOrder(Positive(ranked))
    ensures forall x :: x in Positive(ranked) <==> x in ranked && x.score > 0.0
    ensures |Positive(ranked)| <= |ranked|
  {
    if ranked != [] {
      var front, last := ranked[..|ranked| - 1], ranked[|ranked| - 1];
      assert ranked == front + [last];
      PositiveHolds(front);
      assert last == ranked[|ranked| - 1];
      forall i | 0 <= i < |Positive(front)| && InOrder(ranked)
        ensures !Above(last, Positive(front)[i])
      {
        assert Positive(front)[i] in front;
      }
    }
  }

  lemma FoundIsBest(q: Query, rows: seq<Experience>, lexical: seq<real>, limit: nat, x: Scored, y: Scored)
    requires |lexical| == |rows|
    requires x in Found(q, rows, lexical, limit) && y in AllScored(q, rows, lexical)
             && y !in Found(q, rows, lexical, limit)
    ensures InOrder(Found(q, rows, lexical, limit)) && |Found(q, rows, lexical, limit)| <= limit
    ensures x.score > 0.0 && (y.score <= 0.0 || !Above(y, x))
  {
    var scored := AllScored(q, rows, lexical);
    var ranked := Ranked(scored);
    RankedIsInOrder(scored);
    var cut := Take(ranked, limit);
    PositiveHolds(cut);
    var i :| 0 <= i < |cut| && cut[i] == x;
    assert y in multiset(scored) && y in multiset(ranked);
    var j :| 0 <= j < |ranked| && ranked[j] == y;
    assert j < |cut| ==> y == cut[j];
  }

  /******* The search, told by places *******/

  ghost function RankingAbove(): (Scored, Scored) -> bool {
    (a: Scored, b: Scored) => Above(a, b)
  }

  // Where the next row goes in.
  lemma {:induction false} InsertedAt(ranked: seq<Scored>, item: Scored) returns (k: nat)
    requires InOrder(ranked)
    ensures k <= |ranked| && Inserted(ranked, item) == ranked[..k] + [item] + ranked[k..]
    ensures forall l :: 0 <= l < k ==> !Above(item, ranked[l])
    ensures forall l :: k <= l < |ranked| ==> Above(item, ranked[l])
  {
    k := |ranked|;
    if ranked != [] && Above(item, ranked[|ranked| - 1]) {
      var n := |ranked| - 1;
      k := InsertedAt(ranked[..n], item);
      assert ranked[..n][..k] == ranked[..k] && ranked[..n][k..] + [ranked[n]] == ranked[k..];
      assert ranked[..k] + [item] + ranked[..n][k..] + [ranked[n]] == ranked[..k] + [item] + ranked[k..];
    } else if ranked != [] {
      NoneIsAbove(ranked, item);
    }
  }

  lemma NoneIsAbove(ranked: seq<Scored>, item: Scored)
    requires ranked != [] && InOrder(ranked) && !Above(item, ranked[|ranked| - 1])
    ensures forall l :: 0 <= l < |ranked| ==> !Above(item, ranked[l])
  {
    forall l | 0 <= l < |ranked| - 1
      ensures !Above(item, ranked[l])
    {
      assert !Above(ranked[|ranked| - 1], ranked[l]);
    }
  }

  lemma {:induction false} RankedPlaces(scored: seq<Scored>) returns (places: seq<nat>)
    ensures Places(RankingAbove(), scored, places, Ranked(scored)) && AllPlaced(places, |scored|)
  {
    places := [];
    if scored != [] {
      var n, front := |scored| - 1, scored[..|scored| - 1];
      places := RankedPlaces(front);
      RankedIsInOrder(front);
      var k := InsertedAt(Ranked(front), scored[n]);
      PlacesOneMore(RankingAbove(), scored, places, Ranked(front), n, k);
      PlacedOneMore(places, n, k);
      places := places[..k] + [n] + places[k..];
    }
  }

  predicate Scores(x: Scored) {
    x.score > 0.0
  }

  ghost predicate Falling(ranked: seq<Scored>) {
    forall i, j :: 0 <= i < j < |ranked| && Scores(ranked[j]) ==> Scores(ranked[i])
  }

  lemma InOrderFalls(ranked: seq<Scored>)
    requires InOrder(ranked)
    ensures Falling(ranked)
  {
    forall i, j | 0 <= i < j < |ranked| && Scores(ranked[j])
      ensures Scores(ranked[i])
    {
      assert !Above(ranked[j], ranked[i]);
    }
  }

  // Of such a list the positive rows are the first.
  lemma {:induction false} PositiveIsFirst(ranked: seq<Scored>) returns (p: nat)
    requires Falling(ranked)
    ensures p <= |ranked| && Positive(ranked) == ranked[..p]
    ensures forall k :: 0 <= k < |ranked| ==> (Scores(ranked[k]) <==> k < p)
  {
    p := 0;
    if ranked != [] {
      var n := |ranked| - 1;
      p := PositiveIsFirst(ranked[..n]);
      if Scores(ranked[n]) {
        if n > 0 { assert Scores(ranked[..n][n - 1]); }
        assert p == n && ranked[..n] + [ranked[n]] == ranked;
        p := n + 1;
      }
    }
  }

  // Main result on the search: it finds, in order, ties as they are listed, the best rows with a
  // positive score, and as many as the limit admits.
  lemma FoundPlaces(q: Query, rows: seq<Experience>, lexical: seq<real>, limit: nat) returns (places: seq<nat>)
    requires |lexical| == |rows|
    ensures var scored, above := AllScored(q, rows, lexical), RankingAbove();
            && Places(above, scored, places, Found(q, rows, lexical, limit)) && |places| <= limit
            && (forall k :: 0 <= k < |places| ==> scored[places[k]].score > 0.0)
            && forall j: nat :: j < |scored| && j !in places ==>
                 scored[j].score <= 0.0
                 || (|places| == limit && forall k :: 0 <= k < |places| ==> Better(above, scored, places[k], j))
  {
    places := FoundAmong(AllScored(q, rows, lexical), limit);
  }

  lemma FoundAmong(scored: seq<Scored>, limit: nat) returns (places: seq<nat>)
    ensures Places(RankingAbove(), scored, places, Positive(Take(Ranked(scored), limit))) && |places| <= limit
    ensures forall k :: 0 <= k < |places| ==> scored[places[k]].score > 0.0
    ensures forall j: nat :: j < |scored| && j !in places ==>
              scored[j].score <= 0.0
              || (|places| == limit
                  && forall k :: 0 <= k < |places| ==> Better(RankingAbove(), scored, places[k], j))
  {
    var ranked, above, good := Ranked(scored), RankingAbove(), (x: Scored) => Scores(x);
    var all := RankedPlaces(scored);
    RankedIsInOrder(scored);
    InOrderFalls(Take(ranked, limit));
    var p := PositiveIsFirst(Take(ranked, limit));
    places := all[..p];
    forall j: nat | j < |scored| && j !in places && good(scored[j])
      ensures p == limit && forall k :: 0 <= k < p ==> Better(above, scored, all[k], j)
    {
      LeftOutIsWorse(above, good, scored, all, ranked, limit, p, j);
    }
  }

  /******* Wording that overturns structure *******/

  // The seven tokens of a query and two rows.
  datatype Tokens = Tokens(notes: string, colon: string, n: string, asked: string, typed: string, movie: string,
                           tv: string)
  {
    ghost predicate Differ() {
      Distinct([notes, colon, n, asked, typed, movie, tv])
    }

    // {"supported_types": ["movie", "tv"]}
    function Asking(): seq<string> { [asked, colon, movie, tv] }

    function AskingCounts(): Counter {
      Counter([asked, colon, movie, tv], map[asked := 1, colon := 1, movie := 1, tv := 1])
    }

    // {"notes": "n n n", "supportedTypes": ["movie"]}
    function Typing(): seq<string> { [notes, colon, n, n, n, typed, colon, movie] }

    function TypingCounts(): Counter {
      Counter([notes, colon, n, typed, movie], map[notes := 1, colon := 2, n := 3, typed := 1, movie := 1])
    }

    // {"notes": "supported_types movie"}
    function Wording(): seq<string> { [notes, colon, asked, movie] }

    function WordingCounts(): Counter {
      Counter([notes, colon, asked, movie], map[notes := 1, colon := 1, asked := 1, movie := 1])
    }
  }

  const TOKENS := Tokens("notes", ":", "n", "supported_types", "supportedtypes", "movie", "tv")

  // Without a failure or evidence all three descriptors are those of the unknown family.
  const ASKING := Query("", "unknown", "unknown:unknown", {}, {}, {"movie", "tv"}, "")
  const TYPED_ROW := Experience("", "unknown", "unknown:unknown", "", {}, {}, {"movie"}, {}, TOKENS.TypingCounts())
  const WORDED_ROW := Experience("", "unknown", "unknown:unknown", "", {}, {}, {}, {}, TOKENS.WordingCounts())

  lemma TokensDiffer()
    ensures TOKENS.Differ()
  {
    assert TOKENS.notes[0] == 'n' && TOKENS.movie[0] == 'm';
    assert TOKENS.colon[0] == ':' && TOKENS.n[0] == 'n';
  }

  // What each counter holds of each token.
  lemma TheseCounts(k: Tokens)
    requires k.Differ()
    ensures var q := k.AskingCounts();
            && Count(q, k.asked) == 1 && Count(q, k.colon) == 1 && Count(q, k.movie) == 1 && Count(q, k.tv) == 1
    ensures var a := k.TypingCounts();
            && Count(a, k.notes) == 1 && Count(a, k.colon) == 2 && Count(a, k.n) == 3 && Count(a, k.typed) == 1
            && Count(a, k.movie) == 1 && Count(a, k.asked) == 0 && Count(a, k.tv) == 0
    ensures var b := k.WordingCounts();
            && Count(b, k.notes) == 1 && Count(b, k.colon) == 1 && Count(b, k.asked) == 1 && Count(b, k.movie) == 1
            && Count(b, k.tv) == 0
  {
    PairwiseDifferent(k.notes, k.colon, k.n, k.asked, k.typed, k.movie, k.tv);
  }

  lemma PairwiseDifferent(a: string, b: string, c: string, d: string, e: string, f: string, g: string)
    requires Distinct([a, b, c, d, e, f, g])
    ensures a != b && a != c && a != d && a != e && a != f && a != g
    ensures b != c && b != d && b != e && b != f && b != g
    ensures c != d && c != e && c != f && c != g
    ensures d != e && d != f && d != g && e != f && e != g && f != g
  {
    var all := [a, b, c, d, e, f, g];
    assert all[0] == a && all[1] == b && all[2] == c && all[3] == d && all[4] == e && all[5] == f && all[6] == g;
  }

  lemma NormsAreSquares(k: Tokens)
    requires k.Differ()
    ensures SquaredNorm(k.AskingCounts()) == 4 && SquaredNorm(k.TypingCounts()) == 16
            && SquaredNorm(k.WordingCounts()) == 4
  {
    var q, a, b := k.AskingCounts(), k.TypingCounts(), k.WordingCounts();
    TheseCounts(k);
    SumOfFour(k.asked, k.colon, k.movie, k.tv, Product(q, q));
    SumOfFour(k.notes, k.colon, k.n, k.typed, Product(a, a));
    SumOfOneMore([k.notes, k.colon, k.n, k.typed], k.movie, Product(a, a));
    assert a.tokens == [k.notes, k.colon, k.n, k.typed] + [k.movie];
    SumOfFour(k.notes, k.colon, k.asked, k.movie, Product(b, b));
  }

  lemma DotsAreThree(k: Tokens)
    requires k.Differ()
    ensures Dot(k.AskingCounts(), k.TypingCounts()) == 3 && Dot(k.AskingCounts(), k.WordingCounts()) == 3
  {
    var q, a, b := k.AskingCounts(), k.TypingCounts(), k.WordingCounts();
    TheseCounts(k);
    CommonSum(q.tokens, q, a);
    SumOfFour(k.asked, k.colon, k.movie, k.tv, Product(q, a));
    CommonSum(q.tokens, q, b);
    SumOfFour(k.asked, k.colon, k.movie, k.tv, Product(q, b));
  }

  // The counters are those of the words.
  lemma TokensAreCounted(k: Tokens)
    requires k.Differ()
    ensures Counts(k.AskingCounts(), k.Asking()) && Counts(k.TypingCounts(), k.Typing())
            && Counts(k.WordingCounts(), k.Wording())
  {
    PairwiseDifferent(k.notes, k.colon, k.n, k.asked, k.typed, k.movie, k.tv);
    FourCounted(k.asked, k.colon, k.movie, k.tv);
    FourCounted(k.notes, k.colon, k.asked, k.movie);
    TypingCounted(k.notes, k.colon, k.n, k.typed, k.movie);
    CountedHolds(k.Asking());
    CountedHolds(k.Typing());
    CountedHolds(k.Wording());
  }

  function Counted(words: seq<string>): Counter {
    if words == [] then Counter([], map[]) else Bumped(Counted(words[..|words| - 1]), words[|words| - 1])
  }

  lemma {:induction false} CountedHolds(words: seq<string>)
    ensures Counts(Counted(words), words)
  {
    if words != [] {
      CountedHolds(words[..|words| - 1]);
      NextCounted(Counted(words[..|words| - 1]), words[..|words| - 1], words[|words| - 1]);
      assert words == words[..|words| - 1] + [words[|words| - 1]];
    }
  }

  lemma CountedOneMore(front: seq<string>, t: string, words: seq<string>)
    requires words == front + [t]
    ensures Counted(words) == Bumped(Counted(front), t)
  {
    assert words[..|words| - 1] == front && words[|words| - 1] == t;
  }

  lemma NewToken(front: seq<string>, t: string, words: seq<string>, before: Counter, after: Counter)
    requires Counted(front) == before && words == front + [t] && t !in before.counts
    requires after == Counter(before.tokens + [t], before.counts[t := 1])
    ensures Counted(words) == after
  {
    CountedOneMore(front, t, words);
  }

  lemma KnownToken(front: seq<string>, t: string, words: seq<string>, before: Counter, after: Counter)
    requires Counted(front) == before && words == front + [t] && t in before.counts
    requires after == Counter(before.tokens, before.counts[t := before.counts[t] + 1])
    ensures Counted(words) == after
  {
    CountedOneMore(front, t, words);
  }

  lemma TwoCounted(a: string, b: string)
    requires a != b
    ensures Counted([a, b]) == Counter([a, b], map[a := 1, b := 1])
  {
    NewToken([], a, [a], Counter([], map[]), Counter([a], map[a := 1]));
    NewToken([a], b, [a, b], Counter([a], map[a := 1]), Counter([a, b], map[a := 1, b := 1]));
  }

  lemma FourCounted(a: string, b: string, c: string, d: string)
    requires a != b && a != c && a != d && b != c && b != d && c != d
    ensures Counted([a, b, c, d]) == Counter([a, b, c, d], map[a := 1, b := 1, c := 1, d := 1])
  {
    var two, three := Counter([a, b], map[a := 1, b := 1]), Counter([a, b, c], map[a := 1, b := 1, c := 1]);
    TwoCounted(a, b);
    NewToken([a, b], c, [a, b, c], two, three);
    NewToken([a, b, c], d, [a, b, c, d], three, Counter([a, b, c, d], map[a := 1, b := 1, c := 1, d := 1]));
  }

  lemma FiveCounted(a: string, b: string, n: string)
    requires a != b && a != n && b != n
    ensures Counted([a, b, n, n, n]) == Counter([a, b, n], map[a := 1, b := 1, n := 3])
  {
    var one, two := Counter([a, b, n], map[a := 1, b := 1, n := 1]), Counter([a, b, n], map[a := 1, b := 1, n := 2]);
    TwoCounted(a, b);
    NewToken([a, b], n, [a, b, n], Counter([a, b], map[a := 1, b := 1]), one);
    KnownToken([a, b, n], n, [a, b, n, n], one, two);
    KnownToken([a, b, n, n], n, [a, b, n, n, n], two, Counter([a, b, n], map[a := 1, b := 1, n := 3]));
  }

  lemma TypingCounted(a: string, b: string, n: string, c: string, d: string)
    requires a != b && a != n && a != c && a != d && b != n && b != c && b != d && n != c && n != d && c != d
    ensures Counted([a, b, n, n, n, c, b, d])
            == Counter([a, b, n, c, d], map[a := 1, b := 2, n := 3, c := 1, d := 1])
  {
    var five := Counter([a, b, n], map[a := 1, b := 1, n := 3]);
    var six := Counter([a, b, n, c], map[a := 1, b := 1, n := 3, c := 1]);
    var seven := Counter([a, b, n, c], map[a := 1, b := 2, n := 3, c := 1]);
    FiveCounted(a, b, n);
    NewToken([a, b, n, n, n], c, [a, b, n, n, n, c], five, six);
    KnownToken([a, b, n, n, n, c], b, [a, b, n, n, n, c, b], six, seven);
    NewToken([a, b, n, n, n, c, b], d, [a, b, n, n, n, c, b, d], seven,
             Counter([a, b, n, c, d], map[a := 1, b := 2, n := 3, c := 1, d := 1]));
  }

  lemma SumOfFour(a: string, b: string, c: string, d: string, term: string -> int)
    ensures Sum([a, b, c, d], term) == term(a) + term(b) + term(c) + term(d)
  {
    SumOfOneMore([], a, term);
    SumOfOneMore([a], b, term);
    SumOfOneMore([a, b], c, term);
    SumOfOneMore([a, b, c], d, term);
    assert [] + [a] == [a] && [a] + [b] == [a, b] && [a, b] + [c] == [a, b, c] && [a, b, c] + [d] == [a, b, c, d];
  }

  lemma TheirCosines()
    ensures IsCosine(0.375, TOKENS.AskingCounts(), TOKENS.TypingCounts())
    ensures IsCosine(0.75, TOKENS.AskingCounts(), TOKENS.WordingCounts())
  {
    TokensDiffer();
    NormsAreSquares(TOKENS);
    DotsAreThree(TOKENS);
  }

  // The cosines of a pair of counters are one number.
  lemma CosineIsUnique(x: real, y: real, a: Counter, b: Counter)
    requires IsCosine(x, a, b) && IsCosine(y, a, b)
    ensures x == y
  {
    var n := SquaredNorm(a) * SquaredNorm(b);
    if SquaredNorm(a) != 0 && SquaredNorm(b) != 0 {
      PositiveOrNot(x, y, n as real);
    }
  }

  lemma PositiveOrNot(x: real, y: real, n: real)
    requires x >= 0.0 && y >= 0.0 && n != 0.0 && x * x * n == y * y * n
    ensures x == y
  {
    assert (x * x - y * y) * n == 0.0;
    Unscaled(x * x - y * y, n);
    assert (x - y) * (x + y) == x * x - y * y;
    if x + y != 0.0 { Unscaled(x - y, x + y); }
  }

  lemma TheirStructure()
    ensures FieldScore(ASKING, TYPED_ROW) == 0.64 && FieldScore(ASKING, WORDED_ROW) == 0.60
  {
    assert {"movie", "tv"} * {"movie"} == {"movie"} && {"movie", "tv"} + {"movie"} == {"movie", "tv"};
    assert "movie" != "tv";
    assert |{"movie", "tv"}| == 2;
  }

  // A real query for which wording overturns structure: the first row leads by a shared media
  // type, and yet the search puts the second one, which only repeats the words, in front.
  lemma WordingOverturnsStructure(x: real, y: real)
    requires IsCosine(x, TOKENS.AskingCounts(), TOKENS.TypingCounts())
             && IsCosine(y, TOKENS.AskingCounts(), TOKENS.WordingCounts())
    ensures FieldScore(ASKING, TYPED_ROW) == FieldScore(ASKING, WORDED_ROW) + 0.04
    ensures Counts(TOKENS.AskingCounts(), TOKENS.Asking())
    ensures Counts(TYPED_ROW.words, TOKENS.Typing()) && Counts(WORDED_ROW.words, TOKENS.Wording())
    ensures Found(ASKING, [TYPED_ROW, WORDED_ROW], [x, y], 6)
            == [ScoreOf(FieldScore(ASKING, WORDED_ROW), y, WORDED_ROW),
                ScoreOf(FieldScore(ASKING, TYPED_ROW), x, TYPED_ROW)]
  {
    TheirCosines();
    TokensDiffer();
    TokensAreCounted(TOKENS);
    CosineIsUnique(x, 0.375, TOKENS.AskingCounts(), TOKENS.TypingCounts());
    CosineIsUnique(y, 0.75, TOKENS.AskingCounts(), TOKENS.WordingCounts());
    TheirStructure();
    SecondComesFirst(ASKING, TYPED_ROW, WORDED_ROW, x, y);
  }

  lemma SecondComesFirst(q: Query, a: Experience, b: Experience, x: real, y: real)
    requires Above(ScoreOf(FieldScore(q, b), y, b), ScoreOf(FieldScore(q, a), x, a))
    requires FieldScore(q, a) + LEXICAL_WEIGHT * x > 0.0 && FieldScore(q, b) + LEXICAL_WEIGHT * y > 0.0
    ensures Found(q, [a, b], [x, y], 6) == [ScoreOf(FieldScore(q, b), y, b), ScoreOf(FieldScore(q, a), x, a)]
  {
    var first, second := ScoreOf(FieldScore(q, a), x, a), ScoreOf(FieldScore(q, b), y, b);
    TwoScored(q, a, b, x, y);
    TwoRanked(first, second);
    TwoPositive(second, first);
  }

  lemma TwoScored(q: Query, a: Experience, b: Experience, x: real, y: real)
    ensures AllScored(q, [a, b], [x, y]) == [ScoreOf(FieldScore(q, a), x, a), ScoreOf(FieldScore(q, b), y, b)]
  {
    assert [a, b][..1] == [a] && [x, y][..1] == [x] && [a][..0] == [] && [x][..0] == [];
    assert AllScored(q, [a], [x]) == [ScoreOf(FieldScore(q, a), x, a)];
  }

  lemma TwoRanked(first: Scored, second: Scored)
    requires Above(second, first)
    ensures Ranked([first, second]) == [second, first]
  {
    assert [first, second][..1] == [first] && [first][..0] == [];
    assert Ranked([first]) == [first];
    assert Inserted([first], second) == [second] + [first];
  }

  lemma TwoPositive(first: Scored, second: Scored)
    requires first.score > 0.0 && second.score > 0.0
    ensures Positive([first, second]) == [first, second]
  {
    assert [first, second][..1] == [first] && [first][..0] == [];
    assert Positive([first]) == [first];
  }
}
