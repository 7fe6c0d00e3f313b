/**
 The traversals the deterministic compiler emits into provider code: the frontier index that
 alternates between both ends of a list, and the quality-stratified list.
 */
module EmittedTraversals {
  import opened Basics
  import opened Greedy

  const MAX_TARGETS := 16

  /******* The frontier *******/

  // The emitted index expression.
  function Frontier(i: nat, n: nat): int {
    if i % 2 == 0 then i / 2 else n - 1 - i / 2
  }

  // The step at which the frontier reaches source s.
  function StepOf(s: nat, n: nat): int {
    if 2 * s < n then 2 * s else 2 * (n - 1 - s) + 1
  }

  lemma FrontierIsABijection(i: nat, s: nat, n: nat)
    requires i < n && s < n
    ensures 0 <= Frontier(i, n) < n && StepOf(Frontier(i, n), n) == i
    ensures 0 <= StepOf(s, n) < n && Frontier(StepOf(s, n), n) == s
  {
  }

  function Visited(n: nat, steps: nat): (sources: seq<nat>)
    requires steps <= n
    ensures |sources| == steps
    ensures forall i :: 0 <= i < steps ==> sources[i] == Frontier(i, n)
  {
    seq(steps, i requires 0 <= i < steps => Frontier(i, n))
  }

  // A loop capped at any number of steps visits distinct sources, namely as many from the
  // front as from the back, and one more from the front when the count is odd.
  lemma CappedFrontierIsFair(n: nat, steps: nat, s: nat)
    requires steps <= n && s < n
    ensures forall i, j :: 0 <= i < j < steps ==> Visited(n, steps)[i] != Visited(n, steps)[j]
    ensures s in Visited(n, steps) <==> s < (steps + 1) / 2 || s >= n - steps / 2
  {
    forall i, j | 0 <= i < j < steps
      ensures Frontier(i, n) != Frontier(j, n)
    {
      FrontierIsABijection(i, 0, n);
      FrontierIsABijection(j, 0, n);
    }
    FrontierIsABijection(0, s, n);
    var step := StepOf(s, n);
    if step < steps {
      assert Visited(n, steps)[step] == s;
    } else if s in Visited(n, steps) {
      var i :| 0 <= i < steps && Visited(n, steps)[i] == s;
      FrontierIsABijection(i, s, n);
    }
  }

  /******* The quality-stratified list *******/

  // The heights a list shows; the matcher returns "" where it finds none.
  function HeightsIn<T(==)>(items: seq<T>, height: T -> string): set<string> {
    set x | x in items && height(x) != "" :: height(x)
  }

  // One item for each height, the first one.
  function Strata<T(==)>(items: seq<T>, height: T -> string): seq<T> {
    if items == [] then []
    else
      var front, last := Strata(items[..|items| - 1], height), items[|items| - 1];
      if height(last) != "" && height(last) !in HeightsIn(items[..|items| - 1], height) then front + [last] else front
  }

  // Fill up with further items until the target is reached.
  function Filled<T(==)>(chosen: seq<T>, items: seq<T>, i: nat, target: nat): seq<T>
    requires i <= |items|
    decreases |items| - i
  {
    if i == |items| || |chosen| >= target then chosen
    else Filled(if items[i] in chosen then chosen else chosen + [items[i]], items, i + 1, target)
  }

  function Stratified<T(==)>(items: seq<T>, height: T -> string, target: nat): seq<T> {
    Take(Filled(Strata(items, height), items, 0, target), target)
  }

  method StratifiedSlice<T(==)>(items: seq<T>, height: T -> string, target: nat) returns (out: seq<T>)
    ensures out == Stratified(items, height, target)
  {
    var chosen: seq<T>, seen: set<string> := [], {};
    for i := 0 to |items|
      invariant chosen == Strata(items[..i], height)
      invariant seen == HeightsIn(items[..i], height)
    {
      assert items[..i + 1][..i] == items[..i] && items[..i + 1] == items[..i] + [items[i]];
      HeightsOfOneMore(items[..i], items[i], height);
      var h := height(items[i]);
      if h != "" && h !in seen {
        seen := seen + {h};
        chosen := chosen + [items[i]];
      }
    }
    assert items[..|items|] == items;
    var i := 0;
    ghost var strata := chosen;
    while i < |items| && |chosen| < target
      invariant 0 <= i <= |items|
      invariant Filled(strata, items, 0, target) == Filled(chosen, items, i, target)
    {
      if items[i] !in chosen {
        chosen := chosen + [items[i]];
      }
      i := i + 1;
    }
    out := Take(chosen, target);
  }

  lemma HeightsOfOneMore<T>(front: seq<T>, last: T, height: T -> string)
    ensures HeightsIn(front + [last], height)
            == HeightsIn(front, height) + if height(last) != "" then {height(last)} else {}
  {
  }

  function Elements<T(==)>(items: seq<T>): set<T> {
    set x | x in items
  }

  lemma ElementsOfOneMore<T>(front: seq<T>, last: T)
    ensures Elements(front + [last]) == Elements(front) + {last}
  {
  }

  lemma {:induction false} StrataHold<T>(items: seq<T>, height: T -> string)
    ensures Elements(Strata(items, height)) <= Elements(items)
    ensures HeightsIn(Strata(items, height), height) == HeightsIn(items, height)
    ensures |HeightsIn(items, height)| == |Strata(items, height)|
    ensures Distinct(Strata(items, height))
  {
    if items != [] {
      var front, last := items[..|items| - 1], items[|items| - 1];
      assert items == front + [last];
      StrataHold(front, height);
      ElementsOfOneMore(front, last);
      HeightsOfOneMore(front, last, height);
      if height(last) != "" && height(last) !in HeightsIn(front, height) {
        StrataGrow(Strata(front, height), last, height);
      }
    }
  }

  lemma StrataGrow<T>(strata: seq<T>, last: T, height: T -> string)
    requires Distinct(strata) && height(last) != "" && height(last) !in HeightsIn(strata, height)
    ensures Distinct(strata + [last])
    ensures Elements(strata + [last]) == Elements(strata) + {last}
    ensures HeightsIn(strata + [last], height) == HeightsIn(strata, height) + {height(last)}
  {
  }

  // Filling keeps what was chosen, adds only new items, and stops at the target or at the end.
  lemma {:induction false} FilledHolds<T>(chosen: seq<T>, items: seq<T>, i: nat, target: nat)
    requires i <= |items| && Distinct(chosen) && Elements(chosen) <= Elements(items)
    requires |chosen| < target ==> Elements(items[..i]) <= Elements(chosen)
    ensures var out := Filled(chosen, items, i, target);
            && chosen <= out && Distinct(out)
            && Elements(out) <= Elements(items)
            && (|out| < target ==> Elements(out) == Elements(items))
            && (|chosen| <= target ==> |out| <= target)
    decreases |items| - i
  {
    if i == |items| {
      assert items[..i] == items;
    } else if |chosen| < target {
      var next := if items[i] in chosen then chosen else chosen + [items[i]];
      assert items[..i + 1] == items[..i] + [items[i]];
      ElementsOfOneMore(items[..i], items[i]);
      ElementsOfOneMore(chosen, items[i]);
      FilledHolds(next, items, i + 1, target);
    }
  }

  lemma {:induction false} FewHeights<T>(items: seq<T>, height: T -> string)
    ensures |HeightsIn(items, height)| <= |items|
  {
    if items != [] {
      var front, last := items[..|items| - 1], items[|items| - 1];
      assert items == front + [last];
      FewHeights(front, height);
      HeightsOfOneMore(front, last, height);
    }
  }

  lemma SmallerSet<T>(a: set<T>, b: set<T>)
    requires a <= b
    ensures |a| <= |b| && (|a| == |b| ==> a == b)
  {
    assert b == a + (b - a) && |b| == |a| + |b - a|;
  }

  // The emitted list has at most the target number of entries, distinct ones of the array, and
  // as many as there are; it shows every height exactly when there are no more than the target.
  lemma StratifiedHolds<T>(items: seq<T>, height: T -> string, target: nat)
    ensures var out := Stratified(items, height, target);
            && |out| <= target && Distinct(out)
            && Elements(out) <= Elements(items)
            && (|out| == target || Elements(out) == Elements(items))
            && (HeightsIn(out, height) == HeightsIn(items, height) <==> |HeightsIn(items, height)| <= target)
  {
    var strata := Strata(items, height);
    StrataHold(items, height);
    assert items[..0] == [];
    FilledHolds(strata, items, 0, target);
    var full := Filled(strata, items, 0, target);
    var out := Take(full, target);
    FewHeights(out, height);
    assert Elements(out) <= Elements(full);
    if |strata| <= target {
      HeightsBetween(strata, out, items, height);
    }
  }

  lemma HeightsBetween<T>(strata: seq<T>, out: seq<T>, items: seq<T>, height: T -> string)
    requires strata <= out && Elements(out) <= Elements(items)
    requires HeightsIn(strata, height) == HeightsIn(items, height)
    ensures HeightsIn(out, height) == HeightsIn(items, height)
  {
    forall x | x in strata
      ensures x in out
    {
      var i :| 0 <= i < |strata| && strata[i] == x;
      assert out[i] == x;
    }
    assert forall x :: x in out ==> x in Elements(items);
  }

  /******* The list, told by places *******/

  // Items without a height are kept out, and so is a height a second time.
  ghost function ByHeight<T>(height: T -> string): Rule<T> {
    Rule((x: T) => height(x) == "", (x: T, y: T) => height(x) == height(y))
  }

  // Items chosen before are kept out, and so is an item a second time.
  ghost function Besides<T>(chosen: seq<T>): Rule<T> {
    Rule((x: T) => x in chosen, (x: T, y: T) => x == y)
  }

  lemma HeightKeepsOut<T>(items: seq<T>, height: T -> string, taken: seq<nat>, strata: seq<T>, n: nat)
    requires n < |items| && Increasing(taken, n) && Increasing(taken, |items|) && strata == ItemsAt(items, taken)
    requires HeightsIn(strata, height) == HeightsIn(items[..n], height)
    ensures KeptOut(items, ByHeight(height), taken, n)
            <==> height(items[n]) == "" || height(items[n]) in HeightsIn(items[..n], height)
  {
    var rule := ByHeight(height);
    if height(items[n]) != "" && height(items[n]) in HeightsIn(strata, height) {
      var x :| x in strata && height(x) == height(items[n]);
      var k :| 0 <= k < |strata| && strata[k] == x;
      assert rule.clash(items[n], items[taken[k]]);
    }
    if height(items[n]) != "" && Clashes(items, rule, taken, n) {
      var k :| 0 <= k < |taken| && taken[k] < n && rule.clash(items[n], items[taken[k]]);
      assert strata[k] in strata && height(strata[k]) == height(items[n]);
    }
  }

  lemma {:induction false} StrataAreFiltered<T>(items: seq<T>, height: T -> string) returns (taken: seq<nat>)
    ensures Filters(items, ByHeight(height), taken, Strata(items, height))
  {
    taken := [];
    if items != [] {
      var n := |items| - 1;
      taken := StrataAreFiltered(items[..n], height);
      StrataHold(items[..n], height);
      var before := taken;
      taken := FilterOneMore(items, ByHeight(height), taken, Strata(items[..n], height), n);
      HeightKeepsOut(items, height, before, Strata(items[..n], height), n);
    }
  }

  lemma RestKeepsOut<T>(items: seq<T>, strata: seq<T>, taken: seq<nat>, chosen: seq<T>, n: nat)
    requires n < |items| && Increasing(taken, n) && Increasing(taken, |items|)
    requires chosen == strata + ItemsAt(items, taken)
    ensures KeptOut(items, Besides(strata), taken, n) <==> items[n] in chosen
  {
    KeptOutByValue(items, Besides(strata), taken, n);
  }

  // Filling adds the first items that are not there yet, as many as are missing.
  lemma {:induction false} FillingFills<T>(strata: seq<T>, items: seq<T>, i: nat, target: nat, taken: seq<nat>)
    returns (all: seq<nat>)
    requires i <= |items| && |strata| <= target
    requires FirstFree(items[..i], Besides(strata), target - |strata|, taken) && Increasing(taken, |items|)
    ensures FirstFree(items, Besides(strata), target - |strata|, all)
    ensures Filled(strata + ItemsAt(items, taken), items, i, target) == strata + ItemsAt(items, all)
    decreases |items| - i
  {
    var rule, room, chosen := Besides(strata), target - |strata|, strata + ItemsAt(items, taken);
    all := taken;
    if |taken| == room {
      NoRoomLeft(items, rule, room, taken, i);
    } else if i == |items| {
      assert items[..i] == items;
    } else {
      assert items[..i + 1][..i] == items[..i];
      RestKeepsOut(items, strata, taken, chosen, i);
      KeptOutInFront(items, rule, taken, i + 1, i);
      if items[i] in chosen {
        OneMoreLeft(items[..i + 1], rule, room, taken, i);
        all := FillingFills(strata, items, i + 1, target, taken);
      } else {
        OneMoreTaken(items[..i + 1], rule, room, taken, i);
        MoreChosen(strata, items, taken, i);
        all := FillingFills(strata, items, i + 1, target, taken + [i]);
      }
    }
  }

  lemma MoreChosen<T>(strata: seq<T>, items: seq<T>, taken: seq<nat>, i: nat)
    requires i < |items| && Increasing(taken, i)
    ensures Increasing(taken, |items|) && Increasing(taken + [i], |items|)
    ensures strata + ItemsAt(items, taken + [i]) == strata + ItemsAt(items, taken) + [items[i]]
  {
    assert ItemsAt(items, taken + [i]) == ItemsAt(items, taken) + [items[i]];
  }

  // The emitted list: the first item of each height, up to the target, and then the first of the
  // other items, as many as are missing.
  lemma StratifiedIsFirst<T>(items: seq<T>, height: T -> string, target: nat) returns (a: seq<nat>, b: seq<nat>)
    ensures FirstFree(items, ByHeight(height), target, a)
    ensures var strata := ItemsAt(items, a);
            FirstFree(items, Besides(strata), target - |strata|, b)
            && Stratified(items, height, target) == strata + ItemsAt(items, b)
  {
    var strata := Strata(items, height);
    a := StrataAreFiltered(items, height);
    a := FilterCut(items, ByHeight(height), a, strata, target);
    b := [];
    if |strata| <= target {
      assert items[..0] == [] && strata + ItemsAt(items, []) == strata;
      b := FillingFills(strata, items, 0, target, []);
    } else {
      assert ItemsAt(items, a) + ItemsAt(items, []) == ItemsAt(items, a);
    }
  }

  function TargetCount(observed: set<string>): nat {
    if |observed| < MAX_TARGETS then |observed| else MAX_TARGETS
  }

  // With at most sixteen observed heights, each one its matcher finds is represented.
  lemma ObservedHeightsAreRepresented<T>(items: seq<T>, height: T -> string, observed: set<string>)
    requires forall x :: x in items && height(x) != "" ==> height(x) in observed
    requires |observed| <= MAX_TARGETS
    ensures HeightsIn(Stratified(items, height, TargetCount(observed)), height) == HeightsIn(items, height)
  {
    StratifiedHolds(items, height, TargetCount(observed));
    SmallerSet(HeightsIn(items, height), observed);
  }
}
