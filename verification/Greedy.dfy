/**
 Taking the first free items of a list, told by their places: a rule says which are kept out from
 the start and which keep each other out.
 */
module Greedy {

  // Which items are kept out from the start, and which keep each other out.
  datatype Rule<!T> = Rule(barred: T -> bool, clash: (T, T) -> bool)

  ghost predicate Increasing(taken: seq<nat>, n: nat) {
    && (forall k :: 0 <= k < |taken| ==> taken[k] < n)
    && (forall k, l :: 0 <= k < l < |taken| ==> taken[k] < taken[l])
  }

  // One taken in front of item j clashes with it.
  ghost predicate Clashes<T>(items: seq<T>, rule: Rule<T>, taken: seq<nat>, j: nat)
    requires j < |items| && Increasing(taken, |items|)
  {
    exists k :: 0 <= k < |taken| && taken[k] < j && rule.clash(items[j], items[taken[k]])
  }

  ghost predicate KeptOut<T>(items: seq<T>, rule: Rule<T>, taken: seq<nat>, j: nat)
    requires j < |items| && Increasing(taken, |items|)
  {
    rule.barred(items[j]) || Clashes(items, rule, taken, j)
  }

  lemma OneMoreItem<T>(items: seq<T>, n: nat)
    requires n < |items|
    ensures items[..n + 1] == items[..n] + [items[n]]
  {
  }

  // Exactly the first items that are not kept out, up to the room there is.
  ghost predicate FirstFree<T>(items: seq<T>, rule: Rule<T>, room: nat, taken: seq<nat>) {
    && Increasing(taken, |items|) && |taken| <= room
    && (forall k :: 0 <= k < |taken| ==> !KeptOut(items, rule, taken, taken[k]))
    && (forall j: nat :: j < |items| && j !in taken ==>
          KeptOut(items, rule, taken, j) || (|taken| == room && Increasing(taken, j)))
  }

  lemma StillKeptOut<T>(items: seq<T>, rule: Rule<T>, taken: seq<nat>, more: nat, j: nat)
    requires j <= more < |items| && Increasing(taken, more)
    ensures Increasing(taken + [more], |items|)
    ensures KeptOut(items, rule, taken + [more], j) <==> KeptOut(items, rule, taken, j)
  {
    var after := taken + [more];
    if Clashes(items, rule, taken, j) {
      var k :| 0 <= k < |taken| && taken[k] < j && rule.clash(items[j], items[taken[k]]);
      assert after[k] == taken[k];
    }
  }

  lemma KeptOutInFront<T>(items: seq<T>, rule: Rule<T>, taken: seq<nat>, n: nat, j: nat)
    requires j < n <= |items| && Increasing(taken, n)
    ensures KeptOut(items[..n], rule, taken, j) <==> KeptOut(items, rule, taken, j)
  {
    if Clashes(items, rule, taken, j) {
      var k :| 0 <= k < |taken| && taken[k] < j && rule.clash(items[j], items[taken[k]]);
      assert items[..n][taken[k]] == items[taken[k]];
    }
  }

  lemma OneMoreLeft<T>(items: seq<T>, rule: Rule<T>, room: nat, taken: seq<nat>, n: nat)
    requires n + 1 == |items| && FirstFree(items[..n], rule, room, taken)
    requires |taken| == room || KeptOut(items, rule, taken, n)
    ensures FirstFree(items, rule, room, taken)
  {
    forall j: nat | j < n
      ensures KeptOut(items[..n], rule, taken, j) <==> KeptOut(items, rule, taken, j)
    {
      KeptOutInFront(items, rule, taken, n, j);
    }
  }

  lemma OneMoreTaken<T>(items: seq<T>, rule: Rule<T>, room: nat, taken: seq<nat>, n: nat)
    requires n + 1 == |items| && FirstFree(items[..n], rule, room, taken)
    requires |taken| < room && !KeptOut(items, rule, taken, n)
    ensures FirstFree(items, rule, room, taken + [n])
  {
    var after := taken + [n];
    forall j: nat | j <= n
      ensures KeptOut(items, rule, after, j) <==> if j < n then KeptOut(items[..n], rule, taken, j) else false
    {
      StillKeptOut(items, rule, taken, n, j);
      if j < n { KeptOutInFront(items, rule, taken, n, j); }
    }
    forall j: nat | j < |items| && j !in after
      ensures KeptOut(items, rule, after, j)
    {
      assert after[|taken|] == n && j !in taken;
    }
  }

  lemma NoRoomLeft<T>(items: seq<T>, rule: Rule<T>, room: nat, taken: seq<nat>, i: nat)
    requires i <= |items| && FirstFree(items[..i], rule, room, taken) && |taken| == room
    ensures FirstFree(items, rule, room, taken)
  {
    forall j: nat | j < i
      ensures KeptOut(items[..i], rule, taken, j) <==> KeptOut(items, rule, taken, j)
    {
      KeptOutInFront(items, rule, taken, i, j);
    }
  }

  ghost function ItemsAt<T>(items: seq<T>, taken: seq<nat>): seq<T>
    requires Increasing(taken, |items|)
  {
    seq(|taken|, k requires 0 <= k < |taken| => items[taken[k]])
  }

  lemma ItemsAtOneMore<T>(items: seq<T>, places: seq<nat>, n: nat)
    requires n + 1 == |items| && Increasing(places, n)
    ensures Increasing(places, |items|) && ItemsAt(items, places) == ItemsAt(items[..n], places)
    ensures Increasing(places + [n], |items|)
    ensures ItemsAt(items, places + [n]) == ItemsAt(items[..n], places) + [items[n]]
  {
  }

  // What is taken does not fill the room, so more room changes nothing.
  lemma RoomForMore<T>(items: seq<T>, rule: Rule<T>, room: nat, taken: seq<nat>)
    requires FirstFree(items, rule, room, taken) && |taken| < room
    ensures FirstFree(items, rule, room + 1, taken)
  {
  }

  // With less room, the first of them.
  lemma LessRoom<T>(items: seq<T>, rule: Rule<T>, room: nat, taken: seq<nat>, less: nat)
    requires FirstFree(items, rule, room, taken) && |taken| < room
    ensures FirstFree(items, rule, less, if |taken| <= less then taken else taken[..less])
  {
    if less < |taken| {
      var first := taken[..less];
      forall j: nat | j < |items| && (j in first || j < taken[less])
        ensures KeptOut(items, rule, first, j) <==> KeptOut(items, rule, taken, j)
      {
        InFrontOf(taken, less, j);
        SameInFront(items, rule, taken, less, j);
      }
      forall j: nat | j < |items| && j !in first
        ensures KeptOut(items, rule, first, j) || Increasing(first, j)
      {
        if j < taken[less] { InFrontOf(taken, less, j); }
      }
    }
  }

  lemma InFrontOf(taken: seq<nat>, less: nat, j: nat)
    requires less < |taken| && (forall k, l :: 0 <= k < l < |taken| ==> taken[k] < taken[l])
    requires j in taken[..less] || j < taken[less]
    ensures j < taken[less]
    ensures j in taken ==> j in taken[..less]
  {
    if j in taken {
      var k :| 0 <= k < |taken| && taken[k] == j;
      assert k < less && taken[..less][k] == j;
    }
  }

  lemma SameInFront<T>(items: seq<T>, rule: Rule<T>, taken: seq<nat>, less: nat, j: nat)
    requires j < |items| && Increasing(taken, |items|) && less < |taken| && j < taken[less]
    ensures Increasing(taken[..less], |items|)
    ensures KeptOut(items, rule, taken[..less], j) <==> KeptOut(items, rule, taken, j)
  {
    var first := taken[..less];
    if Clashes(items, rule, taken, j) {
      var k :| 0 <= k < |taken| && taken[k] < j && rule.clash(items[j], items[taken[k]]);
      assert k < less && first[k] == taken[k];
    }
    if Clashes(items, rule, first, j) {
      var k :| 0 <= k < |first| && first[k] < j && rule.clash(items[j], items[first[k]]);
      assert taken[k] == first[k];
    }
  }

  // When only equal items keep each other out, those taken are what keeps the next one out.
  lemma KeptOutByValue<T>(items: seq<T>, rule: Rule<T>, taken: seq<nat>, n: nat)
    requires n < |items| && Increasing(taken, n) && Increasing(taken, |items|)
    requires forall a, b :: rule.clash(a, b) <==> a == b
    ensures KeptOut(items, rule, taken, n) <==> rule.barred(items[n]) || items[n] in ItemsAt(items, taken)
  {
    var those := ItemsAt(items, taken);
    if items[n] in those {
      var k :| 0 <= k < |those| && those[k] == items[n];
      assert rule.clash(items[n], items[taken[k]]);
    }
    if Clashes(items, rule, taken, n) {
      var k :| 0 <= k < |taken| && taken[k] < n && rule.clash(items[n], items[taken[k]]);
      assert those[k] == items[n];
    }
  }

  lemma FirstItems<T>(items: seq<T>, places: seq<nat>, n: nat)
    requires Increasing(places, |items|) && n <= |places|
    ensures Increasing(places[..n], |items|) && ItemsAt(items, places)[..n] == ItemsAt(items, places[..n])
  {
  }

  // Items that do not clash: those that are not kept out, one after the other.
  ghost predicate Filters<T>(items: seq<T>, rule: Rule<T>, taken: seq<nat>, out: seq<T>) {
    FirstFree(items, rule, |items| + 1, taken) && |taken| <= |items| && out == ItemsAt(items, taken)
  }

  // One more item of a list that is filtered without a limit.
  lemma FilterOneMore<T>(items: seq<T>, rule: Rule<T>, taken: seq<nat>, out: seq<T>, n: nat) returns (taken': seq<nat>)
    requires n + 1 == |items| && Filters(items[..n], rule, taken, out)
    ensures Increasing(taken, n) && Increasing(taken, |items|) && out == ItemsAt(items, taken)
    ensures Filters(items, rule, taken', if KeptOut(items, rule, taken, n) then out else out + [items[n]])
  {
    RoomForMore(items[..n], rule, n + 1, taken);
    ItemsAtOneMore(items, taken, n);
    if KeptOut(items, rule, taken, n) {
      OneMoreLeft(items, rule, n + 2, taken, n);
      taken' := taken;
    } else {
      OneMoreTaken(items, rule, n + 2, taken, n);
      taken' := taken + [n];
    }
  }

  // Cut to a limit, it is the first free up to the limit.
  lemma FilterCut<T>(items: seq<T>, rule: Rule<T>, taken: seq<nat>, out: seq<T>, limit: nat) returns (first: seq<nat>)
    requires Filters(items, rule, taken, out)
    ensures FirstFree(items, rule, limit, first)
    ensures ItemsAt(items, first) == if |out| <= limit then out else out[..limit]
  {
    LessRoom(items, rule, |items| + 1, taken, limit);
    first := if |taken| <= limit then taken else taken[..limit];
    if limit < |taken| { FirstItems(items, taken, limit); }
  }
}
