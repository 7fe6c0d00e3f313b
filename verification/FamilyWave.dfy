/**
 One wave of a repair family: validated families fan out to every member, unvalidated ones
 spend their budget on a single representative that rotates across the siblings.
 */
module FamilyWave {
  import opened Basics
  import opened PythonText
  import Projection

  datatype Family = Family(key: string, signals: set<string>, stages: set<string>)

  // Ids and keys are canonical; a missing provider is blank.
  datatype Row = Row(provider: string, family: Option<Family>) | NotARow

  datatype Wave = Wave(validated: set<string>, burden: map<string, int>, blocked: map<string, int>)

  function Weight(signals: set<string>, signal: string, weight: nat): nat {
    if signal in signals then weight else 0
  }

  function Evidence(row: Row): nat {
    if row.NotARow? || row.family.None? then 0
    else
      var family := row.family.value;
      Weight(family.signals, "class-prefix-family", 8)
      + Weight(family.signals, "mixed-tag-nested-container", 6)
      + Weight(family.signals, "nested-anchor-html", 4)
      + Weight(family.signals, "provider-http-2xx", 3)
      + Weight(family.signals, "provider-http-auth-or-challenge", 1)
      + Weight(family.signals, "provider-http-5xx", 1)
      + if |family.stages| < 3 then |family.stages| else 3
  }

  // What one signal is worth.
  function Worth(signal: string): nat {
    if signal == "class-prefix-family" then 8
    else if signal == "mixed-tag-nested-container" then 6
    else if signal == "nested-anchor-html" then 4
    else if signal == "provider-http-2xx" then 3
    else if signal == "provider-http-auth-or-challenge" || signal == "provider-http-5xx" then 1
    else 0
  }

  lemma WeightOfMore(signals: set<string>, signal: string, other: string, weight: nat)
    requires signal !in signals
    ensures Weight(signals + {signal}, other, weight)
            == Weight(signals, other, weight) + if signal == other then weight else 0
  {
  }

  function Signalling(provider: string, family: Family, signals: set<string>): Row {
    Row(provider, Some(family.(signals := signals)))
  }

  // One more signal adds its worth, whatever else is there, and stages add one each up to three.
  lemma EvidenceAddsUp(provider: string, family: Family, signal: string)
    requires signal !in family.signals
    ensures Evidence(Signalling(provider, family, family.signals + {signal}))
            == Evidence(Signalling(provider, family, family.signals)) + Worth(signal)
    ensures Evidence(Signalling(provider, family, {}))
            == if |family.stages| < 3 then |family.stages| else 3
  {
    WeightOfMore(family.signals, signal, "class-prefix-family", 8);
    WeightOfMore(family.signals, signal, "mixed-tag-nested-container", 6);
    WeightOfMore(family.signals, signal, "nested-anchor-html", 4);
    WeightOfMore(family.signals, signal, "provider-http-2xx", 3);
    WeightOfMore(family.signals, signal, "provider-http-auth-or-challenge", 1);
    WeightOfMore(family.signals, signal, "provider-http-5xx", 1);
  }

  // The group a row falls into: its family, or else itself.
  function Key(rows: seq<Row>, i: nat): string
    requires i < |rows|
  {
    if rows[i].NotARow? then ""
    else if rows[i].family.Some? && rows[i].family.value.key != "" then rows[i].family.value.key
    else "provider:" + if rows[i].provider != "" then rows[i].provider else Decimal(i)
  }

  function Burden(burdens: map<string, int>, row: Row): nat {
    if row.Row? && row.provider in burdens && burdens[row.provider] > 0 then burdens[row.provider] else 0
  }

  predicate InGroup(rows: seq<Row>, key: string, i: int) {
    0 <= i < |rows| && rows[i].Row? && Key(rows, i) == key
  }

  /******* The representative, stated at once *******/

  // Row i comes before row j: less blocked, then more evidence, then less burden, then earlier.
  predicate Ahead(rows: seq<Row>, wave: Wave, i: nat, j: nat)
    requires i < |rows| && j < |rows|
  {
    var (e, f) := (Burden(wave.blocked, rows[i]), Burden(wave.blocked, rows[j]));
    || e < f
    || (e == f && AheadByEvidence(rows, wave, i, j))
  }

  predicate AheadByEvidence(rows: seq<Row>, wave: Wave, i: nat, j: nat)
    requires i < |rows| && j < |rows|
  {
    || Evidence(rows[i]) > Evidence(rows[j])
    || (&& Evidence(rows[i]) == Evidence(rows[j])
        && (|| Burden(wave.burden, rows[i]) < Burden(wave.burden, rows[j])
            || (Burden(wave.burden, rows[i]) == Burden(wave.burden, rows[j]) && i < j)))
  }

  ghost predicate Represents(rows: seq<Row>, wave: Wave, i: nat)
    requires i < |rows|
  {
    rows[i].Row? && forall j :: InGroup(rows, Key(rows, i), j) && j != i ==> Ahead(rows, wave, i, j)
  }

  ghost predicate Chosen(rows: seq<Row>, wave: Wave, i: nat)
    requires i < |rows|
  {
    rows[i].Row? && (Key(rows, i) in wave.validated || Represents(rows, wave, i))
  }

  ghost function ChosenIndexes(rows: seq<Row>, wave: Wave): set<nat> {
    set i: nat | i < |rows| && Chosen(rows, wave, i)
  }

  // The rows at the given indexes, or the other ones, in input order.
  function Those<T>(rows: seq<T>, indexes: set<nat>, inside: bool): seq<T> {
    if rows == [] then []
    else
      var n := |rows| - 1;
      Those(rows[..n], indexes, inside) + if (n in indexes) == inside then [rows[n]] else []
  }

  /******* The selection as it is computed *******/

  function Group(rows: seq<Row>, key: string, n: nat): (members: seq<nat>)
    requires n <= |rows|
  {
    if n == 0 then []
    else Group(rows, key, n - 1) + if InGroup(rows, key, n - 1) then [n - 1] else []
  }

  lemma {:induction false} GroupHolds(rows: seq<Row>, key: string, n: nat)
    requires n <= |rows|
    ensures forall i :: i in Group(rows, key, n) <==> i < n && InGroup(rows, key, i)
    ensures InRange(Group(rows, key, n), |rows|)
  {
    if n > 0 { GroupHolds(rows, key, n - 1); }
  }

  // The key of a witness among the candidates; blocking counts only when everyone is blocked.
  predicate Wins(rows: seq<Row>, wave: Wave, anyFree: bool, i: nat, j: nat)
    requires i < |rows| && j < |rows|
  {
    if anyFree then AheadByEvidence(rows, wave, i, j) else Ahead(rows, wave, i, j)
  }

  predicate InRange(indexes: seq<nat>, n: nat) {
    forall k :: 0 <= k < |indexes| ==> indexes[k] < n
  }

  method Free(rows: seq<Row>, wave: Wave, members: seq<nat>) returns (free: seq<nat>)
    requires InRange(members, |rows|)
    ensures InRange(free, |rows|)
    ensures forall i: nat :: i < |rows| ==> (i in free <==> i in members && Burden(wave.blocked, rows[i]) == 0)
  {
    free := [];
    for k := 0 to |members|
      invariant InRange(free, |rows|)
      invariant forall i: nat :: i < |rows| ==> (i in free <==> i in members[..k] && Burden(wave.blocked, rows[i]) == 0)
    {
      assert members[..k + 1] == members[..k] + [members[k]];
      if Burden(wave.blocked, rows[members[k]]) == 0 {
        free := free + [members[k]];
      }
    }
    assert members[..|members|] == members;
  }

  method Best(rows: seq<Row>, wave: Wave, anyFree: bool, candidates: seq<nat>) returns (best: nat)
    requires candidates != [] && InRange(candidates, |rows|)
    ensures best in candidates && best < |rows|
    ensures forall k ::
              0 <= k < |candidates| && candidates[k] != best ==> Wins(rows, wave, anyFree, best, candidates[k])
  {
    best := candidates[0];
    for n := 1 to |candidates|
      invariant best in candidates && best < |rows|
      invariant forall k :: 0 <= k < n && candidates[k] != best ==> Wins(rows, wave, anyFree, best, candidates[k])
    {
      if Wins(rows, wave, anyFree, candidates[n], best) {
        best := candidates[n];
      }
    }
  }

  // Skipping blocked siblings while a free one exists picks the same row as one minimum over all.
  method Representative(rows: seq<Row>, wave: Wave, key: string, members: seq<nat>) returns (r: nat)
    requires members == Group(rows, key, |rows|) && members != []
    ensures InGroup(rows, key, r) && Represents(rows, wave, r)
  {
    GroupHolds(rows, key, |rows|);
    var free := Free(rows, wave, members);
    if free != [] {
      r := Best(rows, wave, true, free);
      assert r in free;
      forall j | InGroup(rows, key, j) && j != r
        ensures Ahead(rows, wave, r, j)
      {
        assert j in members;
        if Burden(wave.blocked, rows[j]) == 0 { assert j in free; }
      }
    } else {
      r := Best(rows, wave, false, members);
      forall j | InGroup(rows, key, j) && j != r
        ensures Ahead(rows, wave, r, j)
      {
        assert j in members;
      }
    }
  }

  function Members(groups: map<string, seq<nat>>, key: string): seq<nat> {
    if key in groups then groups[key] else []
  }

  ghost predicate Grouped(groups: map<string, seq<nat>>, rows: seq<Row>, n: nat)
    requires n <= |rows|
  {
    forall key {:trigger Members(groups, key)} :: Members(groups, key) == Group(rows, key, n)
  }

  function Joined(groups: map<string, seq<nat>>, key: string, i: nat): map<string, seq<nat>> {
    groups[key := Members(groups, key) + [i]]
  }

  lemma GroupedStep(groups: map<string, seq<nat>>, rows: seq<Row>, n: nat)
    requires n < |rows| && Grouped(groups, rows, n)
    ensures rows[n].NotARow? ==> Grouped(groups, rows, n + 1)
    ensures var key := Key(rows, n);
            rows[n].Row? ==> Grouped(Joined(groups, key, n), rows, n + 1)
  {
    if rows[n].Row? {
      var key := Key(rows, n);
      var after := Joined(groups, key, n);
      forall other
        ensures Members(after, other) == Group(rows, other, n + 1)
      {
        assert Members(groups, other) == Group(rows, other, n);
      }
    } else {
      forall key
        ensures Members(groups, key) == Group(rows, key, n + 1)
      {
        assert Members(groups, key) == Group(rows, key, n);
      }
    }
  }

  // The families of the rows below n, each where it first appears.
  function FirstKeys(rows: seq<Row>, n: nat): seq<string>
    requires n <= |rows|
  {
    if n == 0 then []
    else
      var front := FirstKeys(rows, n - 1);
      if rows[n - 1].Row? && Key(rows, n - 1) !in front then front + [Key(rows, n - 1)] else front
  }

  method Enter(rows: seq<Row>, i: nat, groups: map<string, seq<nat>>, order: seq<string>)
    returns (groups': map<string, seq<nat>>, order': seq<string>)
    requires i < |rows| && Grouped(groups, rows, i)
    ensures Grouped(groups', rows, i + 1)
    ensures order == FirstKeys(rows, i) ==> order' == FirstKeys(rows, i + 1)
  {
    GroupedStep(groups, rows, i);
    if rows[i].NotARow? {
      return groups, order;
    }
    var key := Key(rows, i);
    return Joined(groups, key, i), if key in order then order else order + [key];
  }

  method Groups(rows: seq<Row>) returns (groups: map<string, seq<nat>>, order: seq<string>)
    ensures Grouped(groups, rows, |rows|)
    ensures order == FirstKeys(rows, |rows|)
  {
    groups, order := map[], [];
    for i := 0 to |rows|
      invariant Grouped(groups, rows, i)
      invariant order == FirstKeys(rows, i)
    {
      groups, order := Enter(rows, i, groups, order);
    }
  }

  ghost predicate FirstBelow(rows: seq<Row>, key: string, n: nat)
    requires n <= |rows|
  {
    Group(rows, key, n) != [] && Group(rows, key, n)[0] < n
  }

  ghost predicate FirstBefore(rows: seq<Row>, key: string, other: string, n: nat)
    requires n <= |rows|
  {
    FirstBelow(rows, key, n) && FirstBelow(rows, other, n) && Group(rows, key, n)[0] < Group(rows, other, n)[0]
  }

  lemma FirstStands(rows: seq<Row>, key: string, n: nat)
    requires n < |rows| && FirstBelow(rows, key, n)
    ensures FirstBelow(rows, key, n + 1) && Group(rows, key, n + 1)[0] == Group(rows, key, n)[0]
  {
  }

  lemma {:induction false} EveryKeyAppears(rows: seq<Row>, n: nat)
    requires n <= |rows|
    ensures forall i: nat :: i < n && rows[i].Row? ==> Key(rows, i) in FirstKeys(rows, n)
  {
    if n > 0 { EveryKeyAppears(rows, n - 1); }
  }

  lemma {:induction false} KeysHaveRows(rows: seq<Row>, n: nat, key: string)
    requires n <= |rows| && key in FirstKeys(rows, n)
    ensures FirstBelow(rows, key, n)
  {
    if key in FirstKeys(rows, n - 1) {
      KeysHaveRows(rows, n - 1, key);
      FirstStands(rows, key, n - 1);
    } else {
      NewKeyIsLast(rows, key, n - 1);
    }
  }

  // The families that appear, each once, in the order of their first rows.
  lemma {:induction false} FirstKeysAppear(rows: seq<Row>, n: nat, a: nat, b: nat)
    requires n <= |rows| && a < b < |FirstKeys(rows, n)|
    ensures FirstBefore(rows, FirstKeys(rows, n)[a], FirstKeys(rows, n)[b], n)
    ensures FirstKeys(rows, n)[a] != FirstKeys(rows, n)[b]
  {
    var front, order := FirstKeys(rows, n - 1), FirstKeys(rows, n);
    assert order[a] == front[a] && front[a] in front;
    KeysHaveRows(rows, n - 1, front[a]);
    FirstStands(rows, front[a], n - 1);
    if b < |front| {
      FirstKeysAppear(rows, n - 1, a, b);
      FirstStands(rows, front[b], n - 1);
    } else {
      NewKeyIsLast(rows, order[b], n - 1);
    }
  }

  lemma {:induction false} NoMembers(rows: seq<Row>, key: string, n: nat)
    requires n <= |rows| && forall i: nat :: i < n ==> !InGroup(rows, key, i)
    ensures Group(rows, key, n) == []
  {
    if n > 0 { NoMembers(rows, key, n - 1); }
  }

  lemma NewKeyIsLast(rows: seq<Row>, key: string, n: nat)
    requires n < |rows| && InGroup(rows, key, n) && key !in FirstKeys(rows, n)
    ensures Group(rows, key, n + 1) == [n]
  {
    EveryKeyAppears(rows, n);
    assert forall i: nat :: i < n ==> !InGroup(rows, key, i);
    NoMembers(rows, key, n);
  }

  // Who is chosen so far, family by family.
  ghost predicate Covers(indexes: set<nat>, rows: seq<Row>, wave: Wave, families: set<string>) {
    && (forall i :: i in indexes ==> i < |rows|)
    && (forall i: nat :: i < |rows| ==> (i in indexes <==> Chosen(rows, wave, i) && Key(rows, i) in families))
  }

  lemma AllCovered(indexes: set<nat>, rows: seq<Row>, wave: Wave, families: set<string>, key: string, members: set<nat>)
    requires Covers(indexes, rows, wave, families) && key in wave.validated
    requires forall i: nat :: i in members <==> InGroup(rows, key, i)
    ensures Covers(indexes + members, rows, wave, families + {key})
  {
  }

  lemma OneCovered(indexes: set<nat>, rows: seq<Row>, wave: Wave, families: set<string>, key: string, r: nat)
    requires Covers(indexes, rows, wave, families) && key !in wave.validated
    requires InGroup(rows, key, r) && Represents(rows, wave, r)
    ensures Covers(indexes + {r}, rows, wave, families + {key})
  {
    OnlyOne(rows, wave, key, r);
  }

  function MemberSet(members: seq<nat>): set<nat> {
    set i | i in members
  }

  method ChooseFrom(rows: seq<Row>, wave: Wave, key: string, members: seq<nat>, chosen: set<nat>,
                    ghost families: set<string>)
    returns (indexes: set<nat>)
    requires members == Group(rows, key, |rows|) && members != []
    requires Covers(chosen, rows, wave, families)
    ensures Covers(indexes, rows, wave, families + {key})
  {
    GroupHolds(rows, key, |rows|);
    if key in wave.validated {
      AllCovered(chosen, rows, wave, families, key, MemberSet(members));
      indexes := chosen + MemberSet(members);
    } else {
      var r := Representative(rows, wave, key, members);
      OneCovered(chosen, rows, wave, families, key, r);
      indexes := chosen + {r};
    }
  }

  lemma KeyIsGrouped(rows: seq<Row>, groups: map<string, seq<nat>>, key: string)
    requires Grouped(groups, rows, |rows|) && key in FirstKeys(rows, |rows|)
    ensures Members(groups, key) == Group(rows, key, |rows|) && Members(groups, key) != []
  {
    KeysHaveRows(rows, |rows|, key);
  }

  function KeySet(order: seq<string>): set<string> {
    set key | key in order
  }

  lemma OneMoreKey(order: seq<string>, o: nat)
    requires o < |order|
    ensures KeySet(order[..o + 1]) == KeySet(order[..o]) + {order[o]}
  {
    assert order[..o + 1] == order[..o] + [order[o]];
  }

  method SelectIndexes(rows: seq<Row>, wave: Wave) returns (indexes: set<nat>)
    ensures indexes == ChosenIndexes(rows, wave)
  {
    var groups, order := Groups(rows);
    indexes := {};
    for o := 0 to |order|
      invariant Covers(indexes, rows, wave, KeySet(order[..o]))
    {
      KeyIsGrouped(rows, groups, order[o]);
      OneMoreKey(order, o);
      indexes := ChooseFrom(rows, wave, order[o], Members(groups, order[o]), indexes, KeySet(order[..o]));
    }
    assert order[..|order|] == order;
    AllAreCovered(indexes, rows, wave);
  }

  lemma AllAreCovered(indexes: set<nat>, rows: seq<Row>, wave: Wave)
    requires Covers(indexes, rows, wave, KeySet(FirstKeys(rows, |rows|)))
    ensures indexes == ChosenIndexes(rows, wave)
  {
    EveryKeyAppears(rows, |rows|);
  }

  lemma OnlyOne(rows: seq<Row>, wave: Wave, key: string, r: nat)
    requires InGroup(rows, key, r) && Represents(rows, wave, r)
    ensures forall i: nat :: InGroup(rows, key, i) && Represents(rows, wave, i) ==> i == r
  {
  }

  method SelectFamilyWave(rows: seq<Row>, wave: Wave) returns (selected: seq<Row>, deferred: seq<Row>)
    ensures selected == Those(rows, ChosenIndexes(rows, wave), true)
    ensures deferred == Those(rows, ChosenIndexes(rows, wave), false)
  {
    var indexes := SelectIndexes(rows, wave);
    selected, deferred := [], [];
    for i := 0 to |rows|
      invariant selected == Those(rows[..i], indexes, true)
      invariant deferred == Those(rows[..i], indexes, false)
    {
      assert rows[..i + 1][..i] == rows[..i];
      if i in indexes {
        selected := selected + [rows[i]];
      } else {
        deferred := deferred + [rows[i]];
      }
    }
    assert rows[..|rows|] == rows;
  }

  /******* What a wave selects *******/

  // The wave and the deferred rows split the input, whatever the indexes.
  lemma {:induction false} SelectedAndDeferredPartition<T>(rows: seq<T>, indexes: set<nat>)
    ensures multiset(Those(rows, indexes, true)) + multiset(Those(rows, indexes, false)) == multiset(rows)
  {
    if rows != [] {
      var n := |rows| - 1;
      var front, row := rows[..n], rows[n];
      var these, those := Those(front, indexes, true), Those(front, indexes, false);
      SelectedAndDeferredPartition(front, indexes);
      Projection.PartsGrow(these, those, front, row);
      assert rows == front + [row];
      if n in indexes {
        assert Those(rows, indexes, true) == these + [row] && Those(rows, indexes, false) == those + [];
      } else {
        assert Those(rows, indexes, true) == these + [] && Those(rows, indexes, false) == those + [row];
      }
    }
  }

  // The first sibling, in the order of Ahead, among the rows below n.
  function Leader(rows: seq<Row>, wave: Wave, key: string, n: nat): (r: int)
    requires n <= |rows|
    ensures r == -1 || (r < n && InGroup(rows, key, r))
  {
    if n == 0 then -1
    else
      var r := Leader(rows, wave, key, n - 1);
      if InGroup(rows, key, n - 1) && (r == -1 || Ahead(rows, wave, n - 1, r)) then n - 1 else r
  }

  lemma {:induction false} LeaderIsAhead(rows: seq<Row>, wave: Wave, key: string, n: nat)
    requires n <= |rows|
    ensures var r := Leader(rows, wave, key, n);
            forall j: nat :: j < n && InGroup(rows, key, j) ==> r >= 0 && (j == r || Ahead(rows, wave, r, j))
  {
    if n > 0 {
      LeaderIsAhead(rows, wave, key, n - 1);
    }
  }

  // Every group that is not validated has exactly one chosen row, blocked only when all are.
  lemma OneRepresentative(rows: seq<Row>, wave: Wave, key: string, i: nat)
    requires InGroup(rows, key, i) && key !in wave.validated
    ensures var r := Leader(rows, wave, key, |rows|);
            && r >= 0 && InGroup(rows, key, r)
            && (forall j: nat :: InGroup(rows, key, j) ==> (Chosen(rows, wave, j) <==> j == r))
            && (Burden(wave.blocked, rows[r]) > 0 ==> forall j: nat ::
                  InGroup(rows, key, j) ==> Burden(wave.blocked, rows[j]) > 0)
  {
    LeaderIsAhead(rows, wave, key, |rows|);
    var r := Leader(rows, wave, key, |rows|);
    assert Represents(rows, wave, r);
    OnlyOne(rows, wave, key, r);
  }

  // The chosen row of such a group is blocked least; of those it has the most evidence; of those it
  // has failed least; and of those it comes first.
  lemma ChosenIsBest(rows: seq<Row>, wave: Wave, r: nat, j: nat)
    requires r < |rows| && j < |rows| && rows[r].Row? && rows[j].Row? && Key(rows, j) == Key(rows, r)
    requires Chosen(rows, wave, r) && Key(rows, r) !in wave.validated
    ensures var blocked, blocked' := Burden(wave.blocked, rows[r]), Burden(wave.blocked, rows[j]);
            var failed, failed' := Burden(wave.burden, rows[r]), Burden(wave.burden, rows[j]);
            var evidence, evidence' := Evidence(rows[r]), Evidence(rows[j]);
            && blocked <= blocked'
            && (blocked == blocked' ==> evidence >= evidence')
            && (blocked == blocked' && evidence == evidence' ==> failed <= failed')
            && (blocked == blocked' && evidence == evidence' && failed == failed' ==> r <= j)
  {
    if j != r {
      assert InGroup(rows, Key(rows, r), j);
      assert Ahead(rows, wave, r, j);
    }
  }

  predicate HasFamily(row: Row) {
    row.Row? && row.family.Some? && row.family.value.key != ""
  }

  // Rows of families go by their family; of the others, those of one provider go together, and one
  // without a provider stays alone.
  lemma GroupsAre(rows: seq<Row>, i: nat, j: nat)
    requires i < |rows| && j < |rows| && rows[i].Row? && rows[j].Row?
    ensures HasFamily(rows[i]) && HasFamily(rows[j]) ==>
              (Key(rows, i) == Key(rows, j) <==> rows[i].family.value.key == rows[j].family.value.key)
    ensures !HasFamily(rows[i]) && !HasFamily(rows[j]) && rows[i].provider != "" && rows[j].provider != "" ==>
              (Key(rows, i) == Key(rows, j) <==> rows[i].provider == rows[j].provider)
    ensures !HasFamily(rows[i]) && !HasFamily(rows[j]) && rows[i].provider == rows[j].provider == "" ==>
              (Key(rows, i) == Key(rows, j) <==> i == j)
  {
    if !HasFamily(rows[i]) && !HasFamily(rows[j]) {
      var a := if rows[i].provider != "" then rows[i].provider else Decimal(i);
      var b := if rows[j].provider != "" then rows[j].provider else Decimal(j);
      assert Key(rows, i)[9..] == a && Key(rows, j)[9..] == b;
      if Decimal(i) == Decimal(j) { DecimalIsInjective(i, j); }
    }
  }

  /******* How large a wave is *******/

  // How many rows below n a choice takes from a family.
  function Fanned(rows: seq<Row>, indexes: set<nat>, key: string, n: nat): nat
    requires n <= |rows|
  {
    if n == 0 then 0
    else Fanned(rows, indexes, key, n - 1) + if InGroup(rows, key, n - 1) && n - 1 in indexes then 1 else 0
  }

  lemma {:induction false} AllAreFanned(rows: seq<Row>, indexes: set<nat>, key: string, n: nat)
    requires n <= |rows| && forall i: nat :: InGroup(rows, key, i) ==> i in indexes
    ensures Fanned(rows, indexes, key, n) == |Group(rows, key, n)|
  {
    if n > 0 { AllAreFanned(rows, indexes, key, n - 1); }
  }

  lemma {:induction false} OneIsFanned(rows: seq<Row>, indexes: set<nat>, key: string, r: nat, n: nat)
    requires n <= |rows| && InGroup(rows, key, r)
    requires forall i: nat :: InGroup(rows, key, i) ==> (i in indexes <==> i == r)
    ensures Fanned(rows, indexes, key, n) == if r < n then 1 else 0
  {
    if n > 0 { OneIsFanned(rows, indexes, key, r, n - 1); }
  }

  // A validated family sends all its rows, any other exactly one.
  lemma ValidatedFansOut(rows: seq<Row>, wave: Wave, key: string)
    ensures var size := |Group(rows, key, |rows|)|;
            Fanned(rows, ChosenIndexes(rows, wave), key, |rows|)
            == if key in wave.validated then size else if size == 0 then 0 else 1
  {
    var indexes, members := ChosenIndexes(rows, wave), Group(rows, key, |rows|);
    GroupHolds(rows, key, |rows|);
    if key in wave.validated || members == [] {
      forall i: nat | InGroup(rows, key, i)
        ensures i in indexes
      {
        assert i in members;
      }
      AllAreFanned(rows, indexes, key, |rows|);
    } else {
      assert members[0] in members;
      OneRepresentative(rows, wave, key, members[0]);
      OneIsFanned(rows, indexes, key, Leader(rows, wave, key, |rows|), |rows|);
    }
  }

  function Total(rows: seq<Row>, indexes: set<nat>, order: seq<string>, n: nat): nat
    requires n <= |rows|
  {
    if order == [] then 0
    else Total(rows, indexes, order[..|order| - 1], n) + Fanned(rows, indexes, order[|order| - 1], n)
  }

  lemma {:induction false} OneMoreCounted(rows: seq<Row>, indexes: set<nat>, order: seq<string>, n: nat)
    requires n < |rows| && Distinct(order)
    ensures Total(rows, indexes, order, n + 1)
            == Total(rows, indexes, order, n) + if rows[n].Row? && n in indexes && Key(rows, n) in order then 1 else 0
  {
    if order != [] {
      var front, last := order[..|order| - 1], order[|order| - 1];
      assert order == front + [last];
      assert last !in front;
      OneMoreCounted(rows, indexes, front, n);
    }
  }

  lemma {:induction false} NothingCounted(rows: seq<Row>, indexes: set<nat>, order: seq<string>)
    ensures Total(rows, indexes, order, 0) == 0
  {
    if order != [] { NothingCounted(rows, indexes, order[..|order| - 1]); }
  }

  lemma {:induction false} CountedBelow(rows: seq<Row>, indexes: set<nat>, order: seq<string>, n: nat)
    requires n <= |rows| && Distinct(order)
    requires forall i: nat :: i < n && i in indexes ==> rows[i].Row? && Key(rows, i) in order
    ensures |Those(rows[..n], indexes, true)| == Total(rows, indexes, order, n)
  {
    if n == 0 {
      NothingCounted(rows, indexes, order);
    } else {
      CountedBelow(rows, indexes, order, n - 1);
      OneMoreCounted(rows, indexes, order, n - 1);
      assert rows[..n][..n - 1] == rows[..n - 1];
    }
  }

  // A wave is as large as its families ask for: over the families that appear, all rows of a
  // validated one and a single row of any other.
  lemma WaveIsAsLargeAsItsFamilies(rows: seq<Row>, wave: Wave)
    ensures var order, indexes := FirstKeys(rows, |rows|), ChosenIndexes(rows, wave);
            && |Those(rows, indexes, true)| == Total(rows, indexes, order, |rows|)
            && forall key :: key in order ==>
                 Fanned(rows, indexes, key, |rows|) == if key in wave.validated then |Group(rows, key, |rows|)| else 1
  {
    var order, indexes := FirstKeys(rows, |rows|), ChosenIndexes(rows, wave);
    EveryKeyAppears(rows, |rows|);
    forall a, b | 0 <= a < b < |order|
      ensures order[a] != order[b]
    {
      FirstKeysAppear(rows, |rows|, a, b);
    }
    CountedBelow(rows, indexes, order, |rows|);
    assert rows[..|rows|] == rows;
    forall key | key in order
      ensures Fanned(rows, indexes, key, |rows|) == if key in wave.validated then |Group(rows, key, |rows|)| else 1
    {
      KeysHaveRows(rows, |rows|, key);
      ValidatedFansOut(rows, wave, key);
    }
  }

  /******* Rotation over waves *******/

  // Each wave adds one to the burden of every provider it chose.
  function Charged(rows: seq<Row>, indexes: set<nat>, burden: map<string, int>, n: nat): map<string, int>
    requires n <= |rows|
  {
    if n == 0 then burden
    else
      var before := Charged(rows, indexes, burden, n - 1);
      var row := rows[n - 1];
      if n - 1 in indexes && row.Row? then before[row.provider := Burden(before, row) + 1] else before
  }

  ghost function After(rows: seq<Row>, wave: Wave, waves: nat): Wave {
    if waves == 0 then wave
    else
      var before := After(rows, wave, waves - 1);
      before.(burden := Charged(rows, ChosenIndexes(rows, before), before.burden, |rows|))
  }

  ghost predicate DistinctProviders(rows: seq<Row>) {
    forall i, j :: 0 <= i < j < |rows| && rows[i].Row? && rows[j].Row? ==> rows[i].provider != rows[j].provider
  }

  lemma {:induction false} ChargedOnce(rows: seq<Row>, indexes: set<nat>, burden: map<string, int>, n: nat, i: nat)
    requires DistinctProviders(rows) && n <= |rows| && i < |rows| && rows[i].Row?
    ensures Burden(Charged(rows, indexes, burden, n), rows[i])
            == Burden(burden, rows[i]) + if i < n && i in indexes then 1 else 0
  {
    if n > 0 {
      ChargedOnce(rows, indexes, burden, n - 1, i);
    }
  }

  // Siblings that differ in nothing but their burden.
  ghost predicate Tied(rows: seq<Row>, wave: Wave, key: string) {
    && key !in wave.validated
    && (forall i :: InGroup(rows, key, i) ==> Burden(wave.blocked, rows[i]) == 0)
    && (forall i, j :: InGroup(rows, key, i) && InGroup(rows, key, j) ==> Evidence(rows[i]) == Evidence(rows[j]))
  }

  // How many siblings come before row i.
  function Rank(rows: seq<Row>, key: string, i: nat): nat
    requires i <= |rows|
  {
    |Group(rows, key, i)|
  }

  lemma {:induction false} RankGrows(rows: seq<Row>, key: string, i: nat, j: nat)
    requires i < j <= |rows|
    ensures Rank(rows, key, i) + (if InGroup(rows, key, i) then 1 else 0) <= Rank(rows, key, j)
  {
    if i < j - 1 { RankGrows(rows, key, i, j - 1); }
  }

  lemma {:induction false} AtRank(rows: seq<Row>, key: string, n: nat, r: nat)
    requires n <= |rows| && r < Rank(rows, key, n)
    ensures var i := Group(rows, key, n)[r];
            i < n && InGroup(rows, key, i) && Rank(rows, key, i) == r
  {
    if r < Rank(rows, key, n - 1) { AtRank(rows, key, n - 1, r); }
  }

  // Waves come in rounds of m: how many rounds are over after n waves, and whose turn is next.
  datatype Round = Round(over: nat, turn: nat)

  function RoundAt(n: nat, m: nat): Round {
    if n == 0 then Round(0, 0)
    else
      var before := RoundAt(n - 1, m);
      if before.turn + 1 < m then Round(before.over, before.turn + 1) else Round(before.over + 1, 0)
  }

  lemma {:induction false} TurnIsARank(n: nat, m: nat)
    requires m > 0
    ensures RoundAt(n, m).turn < m
  {
  }

  // The turns the sibling of rank r has had after n waves of m siblings.
  function Turns(n: nat, m: nat, r: nat): nat {
    RoundAt(n, m).over + if r < RoundAt(n, m).turn then 1 else 0
  }

  lemma OneMoreTurn(n: nat, m: nat, r: nat)
    requires r < m
    ensures Turns(n + 1, m, r) == Turns(n, m, r) + if r == RoundAt(n, m).turn then 1 else 0
  {
  }

  ghost predicate InStep(rows: seq<Row>, wave: Wave, key: string, start: nat, n: nat) {
    forall i :: InGroup(rows, key, i) && Rank(rows, key, i) < Rank(rows, key, |rows|)
      ==> Burden(wave.burden, rows[i]) == start + Turns(n, Rank(rows, key, |rows|), Rank(rows, key, i))
  }

  // While the siblings are in step, the one whose turn it is represents them.
  lemma WhoseTurn(rows: seq<Row>, wave: Wave, key: string, start: nat, n: nat, i: nat)
    requires InGroup(rows, key, i) && Tied(rows, wave, key) && InStep(rows, wave, key, start, n)
    ensures Chosen(rows, wave, i) <==> Rank(rows, key, i) == RoundAt(n, Rank(rows, key, |rows|)).turn
  {
    RankGrows(rows, key, i, |rows|);
    var m := Rank(rows, key, |rows|);
    TurnIsARank(n, m);
    AtRank(rows, key, |rows|, RoundAt(n, m).turn);
    var turn := Group(rows, key, |rows|)[RoundAt(n, m).turn];
    forall j | InGroup(rows, key, j) && j != turn
      ensures Ahead(rows, wave, turn, j)
    {
      RankGrows(rows, key, j, |rows|);
      if j < turn { RankGrows(rows, key, j, turn); } else { RankGrows(rows, key, turn, j); }
    }
    assert Represents(rows, wave, turn);
    OnlyOne(rows, wave, key, turn);
    if i < turn { RankGrows(rows, key, i, turn); } else if turn < i { RankGrows(rows, key, turn, i); }
  }

  lemma StaysInStep(rows: seq<Row>, before: Wave, key: string, start: nat, n: nat, i: nat)
    requires DistinctProviders(rows) && Tied(rows, before, key) && InStep(rows, before, key, start, n)
    requires InGroup(rows, key, i) && Rank(rows, key, i) < Rank(rows, key, |rows|)
    ensures Burden(Charged(rows, ChosenIndexes(rows, before), before.burden, |rows|), rows[i])
            == start + Turns(n + 1, Rank(rows, key, |rows|), Rank(rows, key, i))
  {
    WhoseTurn(rows, before, key, start, n, i);
    OneMoreTurn(n, Rank(rows, key, |rows|), Rank(rows, key, i));
    ChargedOnce(rows, ChosenIndexes(rows, before), before.burden, |rows|, i);
  }

  // Equal siblings take strict turns: over any number of waves their burdens stay in step.
  lemma {:induction false} SiblingsTakeTurns(rows: seq<Row>, wave: Wave, key: string, start: nat, n: nat)
    requires DistinctProviders(rows) && Tied(rows, wave, key)
    requires forall i :: InGroup(rows, key, i) ==> Burden(wave.burden, rows[i]) == start
    ensures Tied(rows, After(rows, wave, n), key)
    ensures InStep(rows, After(rows, wave, n), key, start, n)
  {
    if n > 0 {
      SiblingsTakeTurns(rows, wave, key, start, n - 1);
      var before := After(rows, wave, n - 1);
      forall i | InGroup(rows, key, i) && Rank(rows, key, i) < Rank(rows, key, |rows|)
        ensures Burden(After(rows, wave, n).burden, rows[i])
                == start + Turns(n, Rank(rows, key, |rows|), Rank(rows, key, i))
      {
        StaysInStep(rows, before, key, start, n - 1, i);
      }
    }
  }

  // No sibling is ever charged more than one wave ahead of another.
  lemma RotationIsFair(rows: seq<Row>, wave: Wave, key: string, start: nat, n: nat, i: nat, j: nat)
    requires DistinctProviders(rows) && Tied(rows, wave, key)
    requires forall k :: InGroup(rows, key, k) ==> Burden(wave.burden, rows[k]) == start
    requires InGroup(rows, key, i) && InGroup(rows, key, j)
    ensures var later := After(rows, wave, n);
            && Burden(later.burden, rows[i]) <= Burden(later.burden, rows[j]) + 1
            && (Chosen(rows, later, i) <==> Rank(rows, key, i) == RoundAt(n, Rank(rows, key, |rows|)).turn)
  {
    SiblingsTakeTurns(rows, wave, key, start, n);
    RankGrows(rows, key, i, |rows|);
    RankGrows(rows, key, j, |rows|);
    WhoseTurn(rows, After(rows, wave, n), key, start, n, i);
  }
}
