/**
 Paging over a repair cohort: each call selects the next few providers, and a cycle ends
 when every provider of the cohort has had its page.
 */
module GuidancePaging {
  import opened Basics
  import opened Greedy
  import opened GuidanceMerge

  const MAX_PAGE := 12

  datatype State = State(schema: int, sourceSha: string, brainSha: string, requested: seq<string>, cycle: int,
                         completed: seq<string>, remaining: seq<string>, page: seq<string>, pageSize: nat,
                         complete: bool)

  datatype Outcome = Selected(state: State) | BadSha | EmptyCohort

  // What one call brings besides the cohort: a page size (absent or zero means one) and the
  // providers to serve first.
  datatype Call = Call(pageSize: Option<int>, priority: seq<string>)

  predicate IsSha(s: string) {
    |s| == 40 && forall c :: c in s ==> '0' <= c <= '9' || 'a' <= c <= 'f'
  }

  function Inside(list: seq<string>, members: set<string>): seq<string> {
    if list == [] then []
    else Inside(list[..|list| - 1], members) + if list[|list| - 1] in members then [list[|list| - 1]] else []
  }

  function Outside(list: seq<string>, members: set<string>): seq<string> {
    if list == [] then []
    else Outside(list[..|list| - 1], members) + if list[|list| - 1] in members then [] else [list[|list| - 1]]
  }

  function Members(list: seq<string>): set<string> {
    set provider | provider in list
  }

  // The priority list, cut to the providers still to be served, each once.
  function Prioritized(priority: seq<string>, remaining: seq<string>): seq<string> {
    if priority == [] then []
    else
      var front, last := Prioritized(priority[..|priority| - 1], remaining), priority[|priority| - 1];
      if last in remaining && last !in front then front + [last] else front
  }

  function Ordered(priority: seq<string>, remaining: seq<string>): seq<string> {
    var first := Prioritized(priority, remaining);
    first + Outside(remaining, Members(first))
  }

  function PageSize(pageSize: Option<int>): nat {
    var size := if pageSize == None || pageSize.value == 0 then 1 else pageSize.value;
    if size < 1 then 1 else if size > MAX_PAGE then MAX_PAGE else size
  }

  predicate SameRun(previous: Option<State>, requested: seq<string>, sourceSha: string, brainSha: string) {
    && previous.Some?
    && previous.value.schema == 1
    && previous.value.sourceSha == sourceSha
    && previous.value.brainSha == brainSha
    && previous.value.requested == requested
  }

  function Done(previous: Option<State>, requested: seq<string>, sourceSha: string, brainSha: string): set<string> {
    if SameRun(previous, requested, sourceSha, brainSha) && !previous.value.complete
    then Members(previous.value.completed) * Members(requested)
    else {}
  }

  function CycleOf(previous: Option<State>, requested: seq<string>, sourceSha: string, brainSha: string): int {
    if !SameRun(previous, requested, sourceSha, brainSha) then 1
    else
      var cycle := if previous.value.cycle == 0 then 1 else previous.value.cycle;
      if previous.value.complete then cycle + 1 else if cycle < 1 then 1 else cycle
  }

  function StateOf(requested: seq<string>, previous: Option<State>, sourceSha: string, brainSha: string,
                   call: Call): State
  {
    var done := Done(previous, requested, sourceSha, brainSha);
    var page := Take(Ordered(call.priority, Outside(requested, done)), PageSize(call.pageSize));
    var completed := done + Members(page);
    State(1, sourceSha, brainSha, requested, CycleOf(previous, requested, sourceSha, brainSha),
          Inside(requested, completed), Outside(requested, completed), page, PageSize(call.pageSize),
          Outside(requested, completed) == [])
  }

  // Ids and SHAs arrive in canonical form; blank ids are dropped here.
  method Select(targets: seq<string>, previous: Option<State>, sourceSha: string, brainSha: string, call: Call)
    returns (outcome: Outcome)
    ensures outcome == if !IsSha(sourceSha) || !IsSha(brainSha) then BadSha
                       else if Outside(targets, {""}) == [] then EmptyCohort
                       else Selected(StateOf(Outside(targets, {""}), previous, sourceSha, brainSha, call))
  {
    if !IsSha(sourceSha) || !IsSha(brainSha) {
      return BadSha;
    }
    var requested := Outside(targets, {""});
    if requested == [] {
      return EmptyCohort;
    }
    var completed := Done(previous, requested, sourceSha, brainSha);
    var remaining := Outside(requested, completed);
    var prioritized: seq<string>, seen: set<string> := [], {};
    for i := 0 to |call.priority|
      invariant prioritized == Prioritized(call.priority[..i], remaining)
      invariant seen == Members(prioritized)
    {
      assert call.priority[..i + 1][..i] == call.priority[..i];
      var p := call.priority[i];
      if p in remaining && p !in seen {
        prioritized := prioritized + [p];
        seen := seen + {p};
      }
    }
    assert call.priority[..|call.priority|] == call.priority;
    var ordered := prioritized + Outside(remaining, seen);
    var page := Take(ordered, PageSize(call.pageSize));
    completed := completed + Members(page);
    var after := Outside(requested, completed);
    outcome := Selected(State(1, sourceSha, brainSha, requested, CycleOf(previous, requested, sourceSha, brainSha),
                              Inside(requested, completed), after, page, PageSize(call.pageSize), after == []));
  }

  /******* Lists *******/

  lemma {:induction false} InsideHolds(list: seq<string>, members: set<string>)
    ensures forall p :: p in Inside(list, members) <==> p in list && p in members
    ensures Distinct(list) ==> Distinct(Inside(list, members))
  {
    if list != [] {
      InsideHolds(list[..|list| - 1], members);
      assert list == list[..|list| - 1] + [list[|list| - 1]];
    }
  }

  lemma {:induction false} OutsideHolds(list: seq<string>, members: set<string>)
    ensures forall p :: p in Outside(list, members) <==> p in list && p !in members
    ensures Distinct(list) ==> Distinct(Outside(list, members))
  {
    if list != [] {
      OutsideHolds(list[..|list| - 1], members);
      assert list == list[..|list| - 1] + [list[|list| - 1]];
    }
  }

  lemma {:induction false} PrioritizedHolds(priority: seq<string>, remaining: seq<string>)
    ensures forall p :: p in Prioritized(priority, remaining) <==> p in priority && p in remaining
    ensures Distinct(Prioritized(priority, remaining))
  {
    if priority != [] {
      PrioritizedHolds(priority[..|priority| - 1], remaining);
      assert priority == priority[..|priority| - 1] + [priority[|priority| - 1]];
    }
  }

  // Prioritizing reorders what remains and drops nobody.
  lemma OrderedIsAPermutation(priority: seq<string>, remaining: seq<string>)
    requires Distinct(remaining)
    ensures multiset(Ordered(priority, remaining)) == multiset(remaining)
    ensures Distinct(Ordered(priority, remaining))
    ensures forall p :: p in Ordered(priority, remaining) <==> p in remaining
    ensures forall i, j :: 0 <= i < j < |Ordered(priority, remaining)| && Ordered(priority, remaining)[j] in priority
              ==> Ordered(priority, remaining)[i] in priority
  {
    var first := Prioritized(priority, remaining);
    var rest := Outside(remaining, Members(first));
    PrioritizedHolds(priority, remaining);
    OutsideHolds(remaining, Members(first));
    forall j | 0 <= j < |rest|
      ensures rest[j] !in first
    {
      assert rest[j] in rest;
    }
    forall i | 0 <= i < |Ordered(priority, remaining)|
      ensures Ordered(priority, remaining)[i] in priority <==> i < |first|
    {
      if i < |first| { assert first[i] in first; } else { assert rest[i - |first|] in rest; }
    }
    assert Distinct(first + rest);
    assert forall p :: p in first + rest <==> p in first || p in rest;
    SameMembers(first + rest, remaining);
  }

  lemma {:induction false} DistinctCount(list: seq<string>, p: string)
    requires Distinct(list)
    ensures multiset(list)[p] == if p in list then 1 else 0
  {
    if list != [] {
      var front, last := list[..|list| - 1], list[|list| - 1];
      assert list == front + [last];
      DistinctCount(front, p);
      assert last !in front;
    }
  }

  lemma SameMembers(a: seq<string>, b: seq<string>)
    requires Distinct(a) && Distinct(b) && forall p :: p in a <==> p in b
    ensures multiset(a) == multiset(b) && |a| == |b|
  {
    forall p
      ensures multiset(a)[p] == multiset(b)[p]
    {
      DistinctCount(a, p);
      DistinctCount(b, p);
    }
    assert |multiset(a)| == |a| && |multiset(b)| == |b|;
  }

  /******* One call *******/

  // What a state of the run over the cohort looks like.
  ghost predicate OnCourse(state: State, cohort: seq<string>, sourceSha: string, brainSha: string) {
    && SameRun(Some(state), cohort, sourceSha, brainSha)
    && state.cycle >= 1
    && Distinct(state.completed)
    && Distinct(state.remaining)
    && multiset(state.completed) + multiset(state.remaining) == multiset(cohort)
    && (state.complete <==> state.remaining == [])
    && state.page != []
  }

  // The providers the open cycle has served before the call.
  function Served(previous: Option<State>): seq<string> {
    if previous.None? || previous.value.complete then [] else previous.value.completed
  }

  lemma PageComesFromRemaining(cohort: seq<string>, done: set<string>, call: Call)
    requires Distinct(cohort)
    ensures var page := Take(Ordered(call.priority, Outside(cohort, done)), PageSize(call.pageSize));
            && Distinct(page)
            && (forall p :: p in page ==> p in cohort && p !in done)
            && (Outside(cohort, done) != [] ==> page != [])
  {
    var remaining := Outside(cohort, done);
    OutsideHolds(cohort, done);
    OrderedIsAPermutation(call.priority, remaining);
    var ordered := Ordered(call.priority, remaining);
    if remaining != [] {
      assert remaining[0] in ordered;
    }
    TakeHolds(ordered, PageSize(call.pageSize));
  }

  lemma TakeHolds(list: seq<string>, limit: nat)
    requires Distinct(list) && limit > 0
    ensures var page := Take(list, limit);
            Distinct(page) && (forall p :: p in page ==> p in list) && (list != [] ==> page != [])
  {
  }

  lemma InsideAndOutside(cohort: seq<string>, members: set<string>)
    requires Distinct(cohort)
    ensures Distinct(Inside(cohort, members)) && Distinct(Outside(cohort, members))
    ensures multiset(Inside(cohort, members)) + multiset(Outside(cohort, members)) == multiset(cohort)
  {
    InsideHolds(cohort, members);
    OutsideHolds(cohort, members);
    forall p
      ensures multiset(Inside(cohort, members))[p] + multiset(Outside(cohort, members))[p] == multiset(cohort)[p]
    {
      DistinctCount(Inside(cohort, members), p);
      DistinctCount(Outside(cohort, members), p);
      DistinctCount(cohort, p);
    }
  }

  lemma DisjointUnion(whole: seq<string>, a: seq<string>, b: seq<string>)
    requires Distinct(whole) && Distinct(a) && Distinct(b)
    requires forall p :: p in whole <==> p in a || p in b
    requires forall p :: p in b ==> p !in a
    ensures multiset(whole) == multiset(a) + multiset(b)
  {
    forall p
      ensures multiset(whole)[p] == multiset(a)[p] + multiset(b)[p]
    {
      DistinctCount(whole, p);
      DistinctCount(a, p);
      DistinctCount(b, p);
    }
  }

  lemma ServedInCohort(cohort: seq<string>, previous: Option<State>, sourceSha: string, brainSha: string)
    requires previous.Some? ==> OnCourse(previous.value, cohort, sourceSha, brainSha)
    ensures Distinct(Served(previous)) && forall p :: p in Served(previous) ==> p in cohort
  {
    if previous.Some? {
      forall p | p in previous.value.completed
        ensures p in cohort
      {
        assert p in multiset(previous.value.completed);
        assert p in multiset(cohort);
      }
    }
  }

  lemma DoneIsServed(cohort: seq<string>, previous: Option<State>, sourceSha: string, brainSha: string)
    requires previous.Some? ==> OnCourse(previous.value, cohort, sourceSha, brainSha)
    ensures Done(previous, cohort, sourceSha, brainSha) == Members(Served(previous))
  {
    ServedInCohort(cohort, previous, sourceSha, brainSha);
  }

  lemma SomethingRemains(cohort: seq<string>, previous: Option<State>, sourceSha: string, brainSha: string)
    requires Distinct(cohort) && cohort != []
    requires previous.Some? ==> OnCourse(previous.value, cohort, sourceSha, brainSha)
    ensures Outside(cohort, Members(Served(previous))) != []
  {
    var served := Members(Served(previous));
    OutsideHolds(cohort, served);
    if previous.None? || previous.value.complete {
      assert cohort[0] in Outside(cohort, served);
    } else {
      var state := previous.value;
      var p := state.remaining[0];
      DistinctCount(cohort, p);
      DistinctCount(state.remaining, p);
      DistinctCount(state.completed, p);
      assert multiset(cohort)[p] == multiset(state.completed)[p] + multiset(state.remaining)[p];
      assert p in Outside(cohort, served);
    }
  }

  // One call: the page is new to the cycle and never empty, completed and remaining split the
  // cohort, and the cycle number rises by one exactly after completion.
  lemma CallStaysOnCourse(cohort: seq<string>, previous: Option<State>, sourceSha: string, brainSha: string, call: Call)
    requires Distinct(cohort) && cohort != []
    requires previous.Some? ==> OnCourse(previous.value, cohort, sourceSha, brainSha)
    ensures var next := StateOf(cohort, previous, sourceSha, brainSha, call);
            && OnCourse(next, cohort, sourceSha, brainSha)
            && |next.page| <= MAX_PAGE
            && multiset(next.completed) == multiset(Served(previous)) + multiset(next.page)
            && next.cycle == if previous.None? then 1
                             else if previous.value.complete then previous.value.cycle + 1 else previous.value.cycle
  {
    var next := StateOf(cohort, previous, sourceSha, brainSha, call);
    var served := Served(previous);
    DoneIsServed(cohort, previous, sourceSha, brainSha);
    SomethingRemains(cohort, previous, sourceSha, brainSha);
    PageComesFromRemaining(cohort, Members(served), call);
    InsideAndOutside(cohort, Members(served) + Members(next.page));
    CompletedGrows(cohort, previous, sourceSha, brainSha, next);
  }

  lemma CompletedGrows(cohort: seq<string>, previous: Option<State>, sourceSha: string, brainSha: string, next: State)
    requires Distinct(cohort) && Distinct(next.page)
    requires previous.Some? ==> OnCourse(previous.value, cohort, sourceSha, brainSha)
    requires forall p :: p in next.page ==> p in cohort && p !in Members(Served(previous))
    requires next.completed == Inside(cohort, Members(Served(previous)) + Members(next.page))
    ensures multiset(next.completed) == multiset(Served(previous)) + multiset(next.page)
  {
    var served := Served(previous);
    InsideHolds(cohort, Members(served) + Members(next.page));
    ServedInCohort(cohort, previous, sourceSha, brainSha);
    DisjointUnion(next.completed, served, next.page);
  }

  // A state of another source, Brain, cohort or schema counts for nothing.
  lemma OtherRunStartsAfresh(cohort: seq<string>, stored: State, sourceSha: string, brainSha: string, call: Call)
    requires || stored.schema != 1 || stored.requested != cohort
             || stored.sourceSha != sourceSha || stored.brainSha != brainSha
    ensures var next := StateOf(cohort, Some(stored), sourceSha, brainSha, call);
            next == StateOf(cohort, None, sourceSha, brainSha, call) && next.cycle == 1
  {
  }

  lemma NextSplits(cohort: seq<string>, previous: Option<State>, sourceSha: string, brainSha: string, call: Call)
    requires Distinct(cohort)
    ensures var next := StateOf(cohort, previous, sourceSha, brainSha, call);
            && SameRun(Some(next), cohort, sourceSha, brainSha)
            && Distinct(next.completed) && Distinct(next.remaining)
            && multiset(next.completed) + multiset(next.remaining) == multiset(cohort)
            && (next.complete <==> next.remaining == [])
  {
    var next := StateOf(cohort, previous, sourceSha, brainSha, call);
    InsideAndOutside(cohort, Done(previous, cohort, sourceSha, brainSha) + Members(next.page));
  }

  lemma EmptyPage(cohort: seq<string>, done: set<string>, call: Call)
    requires Distinct(cohort)
    ensures Take(Ordered(call.priority, Outside(cohort, done)), PageSize(call.pageSize)) == []
            <==> forall p :: p in cohort ==> p in done
  {
    var page := Take(Ordered(call.priority, Outside(cohort, done)), PageSize(call.pageSize));
    OutsideHolds(cohort, done);
    PageComesFromRemaining(cohort, done, call);
    if page != [] {
      assert page[0] in cohort && page[0] !in done;
    } else {
      assert forall p :: p in cohort && p !in done ==> p in Outside(cohort, done);
    }
  }

  lemma PageIsEmptyExactly(cohort: seq<string>, previous: Option<State>, sourceSha: string, brainSha: string,
                           call: Call)
    requires Distinct(cohort)
    ensures StateOf(cohort, previous, sourceSha, brainSha, call).page == []
            <==> forall p :: p in cohort ==> p in Done(previous, cohort, sourceSha, brainSha)
  {
    EmptyPage(cohort, Done(previous, cohort, sourceSha, brainSha), call);
  }

  // Whatever is stored for the cohort, one call puts the run on course again, unless an open cycle
  // lists the whole cohort as served or a complete one has a negative number.
  lemma AnyStoreIsRepairedExactly(cohort: seq<string>, stored: State, sourceSha: string, brainSha: string, call: Call)
    requires Distinct(cohort) && cohort != [] && SameRun(Some(stored), cohort, sourceSha, brainSha)
    ensures OnCourse(StateOf(cohort, Some(stored), sourceSha, brainSha, call), cohort, sourceSha, brainSha)
            <==> if stored.complete then stored.cycle >= 0 else exists p :: p in cohort && p !in stored.completed
  {
    NextSplits(cohort, Some(stored), sourceSha, brainSha, call);
    PageIsEmptyExactly(cohort, Some(stored), sourceSha, brainSha, call);
    if stored.complete { assert cohort[0] in cohort; }
  }

  /******* The page, told by places *******/

  // Providers outside the cohort or served before are kept out, and none is taken twice.
  ghost function Unserved(cohort: seq<string>, done: set<string>): Rule<string> {
    Rule((p: string) => p !in cohort || p in done, (a: string, b: string) => a == b)
  }

  ghost predicate Leads(list: seq<string>, rule: Rule<string>, taken: seq<nat>, out: seq<string>) {
    FirstFree(list, rule, |list| + 1, taken) && out == ItemsAt(list, taken)
  }

  lemma LeadsOneMore(list: seq<string>, rule: Rule<string>, taken: seq<nat>, out: seq<string>, n: nat)
    returns (taken': seq<nat>)
    requires n + 1 == |list| && Leads(list[..n], rule, taken, out) && |taken| <= n
    requires forall a, b :: rule.clash(a, b) <==> a == b
    ensures Leads(list, rule, taken', if rule.barred(list[n]) || list[n] in out then out else out + [list[n]])
    ensures |taken'| <= n + 1
  {
    RoomForMore(list[..n], rule, n + 1, taken);
    ItemsAtOneMore(list, taken, n);
    KeptOutByValue(list, rule, taken, n);
    if KeptOut(list, rule, taken, n) {
      OneMoreLeft(list, rule, n + 2, taken, n);
      taken' := taken;
    } else {
      OneMoreTaken(list, rule, n + 2, taken, n);
      taken' := taken + [n];
    }
  }

  lemma {:induction false} PrioritizedLeads(priority: seq<string>, remaining: seq<string>, rule: Rule<string>)
    returns (taken: seq<nat>)
    requires forall a, b :: rule.clash(a, b) <==> a == b
    requires forall p :: rule.barred(p) <==> p !in remaining
    ensures Leads(priority, rule, taken, Prioritized(priority, remaining)) && |taken| <= |priority|
  {
    taken := [];
    if priority != [] {
      var n := |priority| - 1;
      taken := PrioritizedLeads(priority[..n], remaining, rule);
      taken := LeadsOneMore(priority, rule, taken, Prioritized(priority[..n], remaining), n);
    }
  }

  lemma OutsideOneMore(list: seq<string>, members: set<string>, n: nat)
    requires n < |list|
    ensures Outside(list[..n + 1], members)
            == Outside(list[..n], members) + if list[n] in members then [] else [list[n]]
  {
    assert list[..n + 1][..n] == list[..n];
  }

  lemma OutsideOfMore(front: seq<string>, last: string, members: set<string>)
    ensures Outside(front + [last], members) == Outside(front, members) + if last in members then [] else [last]
  {
    assert (front + [last])[..|front|] == front;
  }

  // What is ordered of the first i providers of the cohort.
  function OrderedUpTo(first: seq<string>, cohort: seq<string>, done: set<string>, i: nat): seq<string>
    requires i <= |cohort|
  {
    first + Outside(Outside(cohort[..i], done), Members(first))
  }

  lemma OrderedOneMore(first: seq<string>, cohort: seq<string>, done: set<string>, i: nat)
    requires i < |cohort| && Distinct(cohort)
    ensures var out := OrderedUpTo(first, cohort, done, i);
            OrderedUpTo(first, cohort, done, i + 1)
            == if cohort[i] in done || cohort[i] in first then out else out + [cohort[i]]
  {
    var rest := Outside(cohort[..i], done);
    OutsideOneMore(cohort, done, i);
    if cohort[i] !in done { OutsideOfMore(rest, cohort[i], Members(first)); }
    assert rest + [] == rest;
  }

  lemma NotOrderedYet(first: seq<string>, cohort: seq<string>, done: set<string>, i: nat)
    requires i < |cohort| && Distinct(cohort)
    ensures cohort[i] in OrderedUpTo(first, cohort, done, i) <==> cohort[i] in first
  {
    OutsideHolds(cohort[..i], done);
    OutsideHolds(Outside(cohort[..i], done), Members(first));
  }

  lemma RestStep(priority: seq<string>, cohort: seq<string>, done: set<string>, first: seq<string>, i: nat,
                 rule: Rule<string>, taken: seq<nat>)
    returns (taken': seq<nat>)
    requires i < |cohort| && Distinct(cohort) && |taken| <= |priority| + i
    requires forall a, b :: rule.clash(a, b) <==> a == b
    requires rule.barred(cohort[i]) <==> cohort[i] in done
    requires Leads(priority + cohort[..i], rule, taken, OrderedUpTo(first, cohort, done, i))
    ensures Leads(priority + cohort[..i + 1], rule, taken', OrderedUpTo(first, cohort, done, i + 1))
    ensures |taken'| <= |priority| + i + 1
  {
    var list, n := priority + cohort[..i + 1], |priority| + i;
    assert list[..n] == priority + cohort[..i] && list[n] == cohort[i];
    OrderedOneMore(first, cohort, done, i);
    NotOrderedYet(first, cohort, done, i);
    taken' := LeadsOneMore(list, rule, taken, OrderedUpTo(first, cohort, done, i), n);
  }

  lemma {:induction false} RestLeads(priority: seq<string>, cohort: seq<string>, done: set<string>, first: seq<string>,
                                     i: nat)
    returns (taken: seq<nat>)
    requires i <= |cohort| && Distinct(cohort) && first == Prioritized(priority, Outside(cohort, done))
    ensures Leads(priority + cohort[..i], Unserved(cohort, done), taken, OrderedUpTo(first, cohort, done, i))
    ensures |taken| <= |priority| + i
  {
    var rule := Unserved(cohort, done);
    if i == 0 {
      OutsideHolds(cohort, done);
      taken := PrioritizedLeads(priority, Outside(cohort, done), rule);
      assert priority + cohort[..0] == priority && first + [] == first;
    } else {
      taken := RestLeads(priority, cohort, done, first, i - 1);
      taken := RestStep(priority, cohort, done, first, i - 1, rule, taken);
    }
  }

  // The page: of the priorities and then of the cohort, the first that are in the cohort and not
  // served yet, each once, as many as asked for: one at least, twelve at most.
  lemma PageIsFirst(cohort: seq<string>, previous: Option<State>, sourceSha: string, brainSha: string, call: Call)
    returns (taken: seq<nat>)
    requires Distinct(cohort) && (previous.Some? ==> OnCourse(previous.value, cohort, sourceSha, brainSha))
    ensures var rule := Unserved(cohort, Members(Served(previous)));
            var size := if call.pageSize.None? || call.pageSize.value < 1 then 1 else Min(call.pageSize.value, 12);
            var next := StateOf(cohort, previous, sourceSha, brainSha, call);
            && FirstFree(call.priority + cohort, rule, size, taken)
            && next.page == ItemsAt(call.priority + cohort, taken) && next.pageSize == size
  {
    var done := Members(Served(previous));
    DoneIsServed(cohort, previous, sourceSha, brainSha);
    taken := OrderedLeads(call.priority, cohort, done, PageSize(call.pageSize));
  }

  lemma OrderedLeads(priority: seq<string>, cohort: seq<string>, done: set<string>, size: nat)
    returns (taken: seq<nat>)
    requires Distinct(cohort)
    ensures FirstFree(priority + cohort, Unserved(cohort, done), size, taken)
    ensures Take(Ordered(priority, Outside(cohort, done)), size) == ItemsAt(priority + cohort, taken)
  {
    var list, first := priority + cohort, Prioritized(priority, Outside(cohort, done));
    var all := RestLeads(priority, cohort, done, first, |cohort|);
    assert cohort[..|cohort|] == cohort;
    LessRoom(list, Unserved(cohort, done), |list| + 1, all, size);
    if size < |all| { FirstItems(list, all, size); }
    taken := if |all| <= size then all else all[..size];
  }

  /******* A run *******/

  function Run(cohort: seq<string>, sourceSha: string, brainSha: string, calls: seq<Call>): (states: seq<State>)
    ensures |states| == |calls|
  {
    if calls == [] then []
    else
      var front := Run(cohort, sourceSha, brainSha, calls[..|calls| - 1]);
      front + [StateOf(cohort, Last(front), sourceSha, brainSha, calls[|calls| - 1])]
  }

  function Last(states: seq<State>): Option<State> {
    if states == [] then None else Some(states[|states| - 1])
  }

  // The providers of a cycle's pages, in the order they were served.
  function CyclePages(states: seq<State>, cycle: int): seq<string> {
    if states == [] then []
    else
      var last := states[|states| - 1];
      CyclePages(states[..|states| - 1], cycle) + if last.cycle == cycle then last.page else []
  }

  function CallsIn(states: seq<State>, cycle: int): nat {
    if states == [] then 0
    else CallsIn(states[..|states| - 1], cycle) + if states[|states| - 1].cycle == cycle then 1 else 0
  }

  // Where the pages of a cycle must have got to by the end of the states.
  function Reached(states: seq<State>, cohort: seq<string>, cycle: int): multiset<string> {
    if states == [] || cycle < 1 then multiset{}
    else
      var last := states[|states| - 1];
      if cycle < last.cycle then multiset(cohort)
      else if cycle == last.cycle then multiset(last.completed)
      else multiset{}
  }

  // Fairness over every run: the pages of a finished cycle, laid end to end, are the cohort in
  // some order; those of the open cycle are its completed providers.
  lemma {:induction false} PagingIsFair(cohort: seq<string>, sourceSha: string, brainSha: string, calls: seq<Call>,
                                        cycle: int)
    requires Distinct(cohort) && cohort != []
    ensures var states := Run(cohort, sourceSha, brainSha, calls);
            && (states != [] ==> OnCourse(states[|states| - 1], cohort, sourceSha, brainSha))
            && multiset(CyclePages(states, cycle)) == Reached(states, cohort, cycle)
            && CallsIn(states, cycle) <= |CyclePages(states, cycle)|
  {
    if calls != [] {
      var call := calls[|calls| - 1];
      var front := Run(cohort, sourceSha, brainSha, calls[..|calls| - 1]);
      PagingIsFair(cohort, sourceSha, brainSha, calls[..|calls| - 1], cycle);
      CallStaysOnCourse(cohort, Last(front), sourceSha, brainSha, call);
      var next := StateOf(cohort, Last(front), sourceSha, brainSha, call);
      if front != [] && Last(front).value.complete {
        CompleteMeansCohort(Last(front).value, cohort, sourceSha, brainSha);
      }
      PagesReach(front, next, cohort, cycle);
      PagesOfOneMore(front, next, cycle);
    }
  }

  lemma CompleteMeansCohort(state: State, cohort: seq<string>, sourceSha: string, brainSha: string)
    requires OnCourse(state, cohort, sourceSha, brainSha) && state.complete
    ensures multiset(state.completed) == multiset(cohort)
  {
  }

  lemma PagesOfOneMore(front: seq<State>, next: State, cycle: int)
    ensures CyclePages(front + [next], cycle)
            == CyclePages(front, cycle) + if next.cycle == cycle then next.page else []
    ensures CallsIn(front + [next], cycle) == CallsIn(front, cycle) + if next.cycle == cycle then 1 else 0
  {
  }

  lemma PagesReach(front: seq<State>, next: State, cohort: seq<string>, cycle: int)
    requires front != [] ==> Last(front).value.cycle >= 1
    requires front != [] && Last(front).value.complete ==> multiset(Last(front).value.completed) == multiset(cohort)
    requires multiset(CyclePages(front, cycle)) == Reached(front, cohort, cycle)
    requires multiset(next.completed) == multiset(Served(Last(front))) + multiset(next.page)
    requires next.cycle == if front == [] then 1
                           else if Last(front).value.complete then Last(front).value.cycle + 1
                           else Last(front).value.cycle
    ensures multiset(CyclePages(front + [next], cycle)) == Reached(front + [next], cohort, cycle)
  {
    PagesOfOneMore(front, next, cycle);
    var before, page := CyclePages(front, cycle), if next.cycle == cycle then next.page else [];
    assert multiset(before + page) == multiset(before) + multiset(page);
    if next.cycle == cycle {
      assert Reached(front, cohort, cycle) == multiset(Served(Last(front)));
    } else {
      assert multiset(page) == multiset{};
    }
  }

  // A cycle takes at most one call per provider.
  lemma CyclesAreShort(cohort: seq<string>, sourceSha: string, brainSha: string, calls: seq<Call>, cycle: int)
    requires Distinct(cohort) && cohort != []
    ensures CallsIn(Run(cohort, sourceSha, brainSha, calls), cycle) <= |cohort|
  {
    var states := Run(cohort, sourceSha, brainSha, calls);
    PagingIsFair(cohort, sourceSha, brainSha, calls, cycle);
    assert |CyclePages(states, cycle)| == |multiset(CyclePages(states, cycle))|;
    assert |multiset(cohort)| == |cohort|;
    if states != [] {
      var last := states[|states| - 1];
      assert |multiset(last.completed) + multiset(last.remaining)| == |last.completed| + |last.remaining|;
      assert |multiset(last.completed)| == |last.completed|;
    }
  }

  /******* Paging and merging together *******/

  // The guidance pages of a run: each call's candidate document refreshes the providers of its page.
  function PagesOf(states: seq<State>, candidates: seq<Document>): (pages: seq<Page>)
    requires |candidates| == |states|
    ensures |pages| == |states|
    ensures forall i :: 0 <= i < |states| ==> pages[i] == Page(candidates[i], Members(states[i].page))
  {
    seq(|states|, i requires 0 <= i < |states| => Page(candidates[i], Members(states[i].page)))
  }

  lemma PagesOfPrefix(states: seq<State>, candidates: seq<Document>, n: nat)
    requires |candidates| == |states| && n <= |states|
    ensures PagesOf(states, candidates)[..n] == PagesOf(states[..n], candidates[..n])
  {
  }

  // Along the states of a run: what is completed was on this page, or was completed before in
  // the same cycle.
  ghost predicate Steps(states: seq<State>) {
    forall i :: 0 <= i < |states| ==> Comes(states, i)
  }

  ghost predicate Comes(states: seq<State>, i: int)
    requires 0 <= i < |states|
  {
    forall p :: p in states[i].completed && p !in states[i].page
      ==> i > 0 && p in states[i - 1].completed && states[i - 1].cycle == states[i].cycle
  }

  lemma {:induction false} RunSteps(cohort: seq<string>, sourceSha: string, brainSha: string, calls: seq<Call>)
    requires Distinct(cohort) && cohort != []
    ensures Steps(Run(cohort, sourceSha, brainSha, calls))
  {
    if calls != [] {
      var n := |calls| - 1;
      var front := Run(cohort, sourceSha, brainSha, calls[..n]);
      RunSteps(cohort, sourceSha, brainSha, calls[..n]);
      PagingIsFair(cohort, sourceSha, brainSha, calls[..n], 1);
      CallStaysOnCourse(cohort, Last(front), sourceSha, brainSha, calls[n]);
      var next := StateOf(cohort, Last(front), sourceSha, brainSha, calls[n]);
      LastComes(front, next);
      OneMoreStep(front, next);
    }
  }

  lemma OneMoreStep(front: seq<State>, next: State)
    requires Steps(front) && Comes(front + [next], |front|)
    ensures Steps(front + [next])
  {
    var states := front + [next];
    forall i | 0 <= i < |front|
      ensures Comes(states, i)
    {
      assert Comes(front, i);
    }
  }

  lemma LastComes(front: seq<State>, next: State)
    requires multiset(next.completed) == multiset(Served(Last(front))) + multiset(next.page)
    requires front != [] && !Last(front).value.complete ==> next.cycle == Last(front).value.cycle
    ensures Comes(front + [next], |front|)
  {
    forall p | p in next.completed && p !in next.page
      ensures front != [] && p in Last(front).value.completed && Last(front).value.cycle == next.cycle
    {
      assert p in multiset(next.completed);
      assert p in Served(Last(front));
    }
  }

  // A completed provider was refreshed in the open cycle.
  lemma {:induction false} CompletedWasRefreshed(states: seq<State>, candidates: seq<Document>, p: string)
    requires states != [] && |candidates| == |states| && Steps(states)
    requires p in states[|states| - 1].completed
    ensures var k := PageOf(PagesOf(states, candidates), p);
            k >= 0 && p in states[k].page && states[k].cycle == states[|states| - 1].cycle
  {
    var n := |states| - 1;
    assert Comes(states, n);
    PagesOfPrefix(states, candidates, n);
    if p !in states[n].page {
      forall i | 0 <= i < n
        ensures Comes(states[..n], i)
      {
        assert Comes(states, i);
      }
      CompletedWasRefreshed(states[..n], candidates[..n], p);
    }
  }

  lemma CompleteCycleServed(cohort: seq<string>, sourceSha: string, brainSha: string, calls: seq<Call>, p: string)
    requires Distinct(cohort) && calls != [] && p in cohort
    ensures Steps(Run(cohort, sourceSha, brainSha, calls))
    ensures Run(cohort, sourceSha, brainSha, calls)[|calls| - 1].complete
            ==> p in Run(cohort, sourceSha, brainSha, calls)[|calls| - 1].completed
  {
    var last := Run(cohort, sourceSha, brainSha, calls)[|calls| - 1];
    PagingIsFair(cohort, sourceSha, brainSha, calls, 1);
    RunSteps(cohort, sourceSha, brainSha, calls);
    if last.complete {
      CompleteMeansCohort(last, cohort, sourceSha, brainSha);
      assert p in multiset(last.completed);
    }
  }

  lemma PagesShareSource(states: seq<State>, candidates: seq<Document>)
    requires |candidates| == |states|
    requires forall i, j ::
              0 <= i < |candidates| && 0 <= j < |candidates| ==> Compatible(Some(candidates[i]), candidates[j])
    ensures OneSource(PagesOf(states, candidates))
  {
  }

  // Once a cycle is complete, the merged document holds for each provider of the cohort exactly
  // the rows of the page that refreshed it in that cycle.
  lemma FullCycleRefreshesCohort(cohort: seq<string>, sourceSha: string, brainSha: string, calls: seq<Call>,
                                 candidates: seq<Document>, kind: Kind, row: Row)
    requires Distinct(cohort) && calls != [] && |candidates| == |calls|
    requires row.provider in cohort && row.provider != ""
    requires Run(cohort, sourceSha, brainSha, calls)[|calls| - 1].complete
    requires forall i, j ::
              0 <= i < |candidates| && 0 <= j < |candidates| ==> Compatible(Some(candidates[i]), candidates[j])
    ensures var states := Run(cohort, sourceSha, brainSha, calls);
            var pages := PagesOf(states, candidates);
            var k := PageOf(pages, row.provider);
            && k >= 0
            && row.provider in states[k].page
            && states[k].cycle == states[|states| - 1].cycle
            && MergeAll(pages, kind).Some?
            && (row in MergeAll(pages, kind).value.rows <==> IsLast(candidates[k].rows, row, kind))
  {
    var states := Run(cohort, sourceSha, brainSha, calls);
    CompleteCycleServed(cohort, sourceSha, brainSha, calls, row.provider);
    CompletedWasRefreshed(states, candidates, row.provider);
    PagesShareSource(states, candidates);
    RunHoldsLastPages(PagesOf(states, candidates), kind, row);
  }
}
