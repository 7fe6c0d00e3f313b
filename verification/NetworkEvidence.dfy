/**
 The projection of a trace of network events and the selection of at most eight of them:
 one event for each fixture and stage first, then events with a control probe, then new
 shapes, then repeats.
 */
module NetworkEvidence {
  import opened Basics
  import opened Projection
  import opened EvidenceFields

  const WINDOW := 12
  const MAX_EVENTS := 8

  const ERROR_CODES := {"ENOTFOUND", "EAI_AGAIN", "ECONNREFUSED", "ECONNRESET", "ETIMEDOUT", "UND_ERR_CONNECT_TIMEOUT",
                        "UND_ERR_HEADERS_TIMEOUT", "UND_ERR_SOCKET", "CERT_HAS_EXPIRED", "ERR_TLS_CERT_ALTNAME_INVALID",
                        "UNABLE_TO_VERIFY_LEAF_SIGNATURE", "DEPTH_ZERO_SELF_SIGNED_CERT", "NUVIO_FETCH_TIMEOUT"}

  datatype Event = NotAnEvent | Event(fixture: Leaf, host: Leaf, stage: Leaf, status: Leaf, functions: Listing,
                                      response: Response, announced: Leaf, address: Address, error: Leaf,
                                      http: Option<Http>, reader: Option<Reader>, probe: Option<Probe>,
                                      media: Option<Media>)

  function EventOf(g: Grammar, e: Event): Event
    requires e.Event?
  {
    Event(Fixture(e.fixture), Host(e.host), Stage(e.stage), Status(e.status), Identifiers(g, e.functions, 8),
          ResponseOf(g, e.response, IsScope(e.address.scope)), Count(e.announced, 256), AddressFields(e.address),
          if Is(e.error, ERROR_CODES) then e.error else Missing,
          if e.http.Some? then Some(HttpOf(e.http)) else None,
          if e.reader.Some? then Some(ReaderOf(e.reader.value)) else None,
          if IsScope(e.address.scope) then ProbeOf(e.probe) else None,
          if e.media.Some? then Some(MediaOf(e.media, 65536)) else None)
  }

  // What tells two events apart: no labels, no probe, and the structure without labels or sample size.
  function ShapeKey(g: Grammar, raw: Event): Event
    requires raw.Event?
  {
    var item := EventOf(g, raw);
    var structure := if IsScope(raw.address.scope) then ResponseOf(g, raw.response, false) else item.response;
    var plain := if structure.Response? && structure.player.Some?
                 then structure.(player := Some(structure.player.value.(sampled := Missing))) else structure;
    item.(address := Address(Missing, Missing, Missing, Missing, Missing, Missing), probe := None, response := plain)
  }

  datatype Seen = Seen(event: Event, shape: Event)

  function Seeing(g: Grammar): Event -> Option<Seen> {
    (raw: Event) => if raw.Event? then Some(Seen(EventOf(g, raw), ShapeKey(g, raw))) else None
  }

  function Phase(event: Event): (Leaf, Leaf) {
    if event.Event? then (event.fixture, event.stage) else (Missing, Missing)
  }

  function Scope(event: Event): Leaf {
    if event.Event? then event.address.scope else Missing
  }

  /******* Ranking *******/

  function Phases(seen: seq<Seen>): set<(Leaf, Leaf)> {
    set s | s in seen :: Phase(s.event)
  }

  function Shapes(seen: seq<Seen>): set<Event> {
    set s | s in seen :: s.shape
  }

  datatype Rank = First | NewShape | Repeat

  // The rank of an event, given the ones before it.
  function RankOf(before: seq<Seen>, seen: Seen): Rank {
    if Phase(seen.event) !in Phases(before) then First
    else if seen.shape !in Shapes(before) then NewShape
    else Repeat
  }

  function Ranked(seen: seq<Seen>, rank: Rank): seq<Event> {
    if seen == [] then []
    else
      var front, last := seen[..|seen| - 1], seen[|seen| - 1];
      Ranked(front, rank) + if RankOf(front, last) == rank then [last.event] else []
  }

  predicate HasProbe(event: Event) {
    event.Event? && event.probe.Some?
  }

  function WithProbe(events: seq<Event>, wanted: bool): seq<Event> {
    if events == [] then []
    else
      var last := events[|events| - 1];
      WithProbe(events[..|events| - 1], wanted) + if HasProbe(last) == wanted then [last] else []
  }

  function Order(seen: seq<Seen>): seq<Event> {
    var others := Ranked(seen, NewShape) + Ranked(seen, Repeat);
    Ranked(seen, First) + WithProbe(others, true) + WithProbe(others, false)
  }

  /******* The selection *******/

  function Scopes(events: seq<Event>): set<Leaf> {
    set e | e in events && IsScope(Scope(e)) :: Scope(e)
  }

  function Flagged(event: Event, omitted: set<Leaf>): Event {
    if event.Event? && event.address.scope in omitted
    then event.(address := event.address.(traceTruncated := Bool(true)))
    else event
  }

  function AllFlagged(events: seq<Event>, omitted: set<Leaf>): (out: seq<Event>)
    ensures |out| == |events|
    ensures forall i :: 0 <= i < |events| ==> out[i] == Flagged(events[i], omitted)
  {
    seq(|events|, i requires 0 <= i < |events| => Flagged(events[i], omitted))
  }

  function EventsIn(seen: seq<Seen>): (events: seq<Event>)
    ensures |events| == |seen|
    ensures forall i :: 0 <= i < |seen| ==> events[i] == seen[i].event
  {
    seq(|seen|, i requires 0 <= i < |seen| => seen[i].event)
  }

  function Window(g: Grammar, values: seq<Event>): seq<Seen> {
    Project(Take(values, WINDOW), Seeing(g))
  }

  // All surviving events in the order they are kept, before the cut to eight.
  function Kept(g: Grammar, values: seq<Event>): seq<Event> {
    var seen := Window(g, values);
    if |seen| <= MAX_EVENTS then EventsIn(seen) else Order(seen)
  }

  function Omitted(g: Grammar, values: seq<Event>): set<Leaf> {
    Scopes(Beyond(values, WINDOW)) + Scopes(Beyond(Kept(g, values), MAX_EVENTS))
  }

  // A value that is not a list is the empty trace.
  function Evidence(g: Grammar, values: seq<Event>): seq<Event> {
    AllFlagged(Take(Kept(g, values), MAX_EVENTS), Omitted(g, values))
  }

  lemma RankedOneMore(front: seq<Seen>, last: Seen, rank: Rank)
    ensures Ranked(front + [last], rank)
            == Ranked(front, rank) + if RankOf(front, last) == rank then [last.event] else []
  {
    assert (front + [last])[..|front|] == front;
  }

  lemma RanksStep(seen: seq<Seen>, i: nat)
    requires i < |seen|
    ensures forall rank :: Ranked(seen[..i + 1], rank)
                           == Ranked(seen[..i], rank)
                              + if RankOf(seen[..i], seen[i]) == rank then [seen[i].event] else []
    ensures Phases(seen[..i + 1]) == Phases(seen[..i]) + {Phase(seen[i].event)}
    ensures Shapes(seen[..i + 1]) == Shapes(seen[..i]) + {seen[i].shape}
  {
    assert seen[..i + 1] == seen[..i] + [seen[i]];
    forall rank
      ensures Ranked(seen[..i + 1], rank)
              == Ranked(seen[..i], rank) + if RankOf(seen[..i], seen[i]) == rank then [seen[i].event] else []
    {
      RankedOneMore(seen[..i], seen[i], rank);
    }
  }

  method RankEvents(seen: seq<Seen>) returns (ranked: seq<Event>)
    ensures ranked == Order(seen)
  {
    var primary: seq<Event>, alternatives: seq<Event>, duplicates: seq<Event> := [], [], [];
    var phases: set<(Leaf, Leaf)>, shapes: set<Event> := {}, {};
    for i := 0 to |seen|
      invariant primary == Ranked(seen[..i], First)
      invariant alternatives == Ranked(seen[..i], NewShape)
      invariant duplicates == Ranked(seen[..i], Repeat)
      invariant phases == Phases(seen[..i]) && shapes == Shapes(seen[..i])
    {
      RanksStep(seen, i);
      var event := seen[i].event;
      if Phase(event) !in phases {
        primary := primary + [event];
      } else if seen[i].shape !in shapes {
        alternatives := alternatives + [event];
      } else {
        duplicates := duplicates + [event];
      }
      phases, shapes := phases + {Phase(event)}, shapes + {seen[i].shape};
    }
    assert seen[..|seen|] == seen;
    var others := alternatives + duplicates;
    ranked := primary + WithProbe(others, true) + WithProbe(others, false);
  }

  method SelectEvidence(g: Grammar, values: seq<Event>) returns (selected: seq<Event>)
    ensures selected == Evidence(g, values)
  {
    var seen := Window(g, values);
    var omitted := Scopes(Beyond(values, WINDOW));
    if |seen| <= MAX_EVENTS {
      selected := AllFlagged(EventsIn(seen), omitted);
      assert omitted == Omitted(g, values);
      return;
    }
    var ranked := RankEvents(seen);
    omitted := omitted + Scopes(Beyond(ranked, MAX_EVENTS));
    selected := AllFlagged(Take(ranked, MAX_EVENTS), omitted);
  }

  /******* Nothing survives twice or is lost before the cut *******/

  lemma {:induction false} ProbesSplit(events: seq<Event>)
    ensures multiset(WithProbe(events, true)) + multiset(WithProbe(events, false)) == multiset(events)
  {
    if events != [] {
      var front, last := events[..|events| - 1], events[|events| - 1];
      ProbesSplit(front);
      assert events == front + [last];
      OneMoreProbe(front, last);
    }
  }

  lemma OneMoreProbe(front: seq<Event>, last: Event)
    requires multiset(WithProbe(front, true)) + multiset(WithProbe(front, false)) == multiset(front)
    ensures multiset(WithProbe(front + [last], true)) + multiset(WithProbe(front + [last], false))
            == multiset(front + [last])
  {
    assert (front + [last])[..|front|] == front;
    PartsGrow(WithProbe(front, true), WithProbe(front, false), front, last);
  }

  lemma EventsOfOneMore(front: seq<Seen>, last: Seen)
    ensures EventsIn(front + [last]) == EventsIn(front) + [last.event]
  {
  }

  ghost predicate SplitByRank(seen: seq<Seen>) {
    multiset(Ranked(seen, First)) + (multiset(Ranked(seen, NewShape)) + multiset(Ranked(seen, Repeat)))
      == multiset(EventsIn(seen))
  }

  lemma {:induction false} RanksSplit(seen: seq<Seen>)
    ensures SplitByRank(seen)
  {
    if seen != [] {
      var front, last := seen[..|seen| - 1], seen[|seen| - 1];
      RanksSplit(front);
      assert seen == front + [last];
      OneMoreSplits(front, last);
    }
  }

  lemma OneMoreSplits(front: seq<Seen>, last: Seen)
    requires SplitByRank(front)
    ensures SplitByRank(front + [last])
  {
    var seen := front + [last];
    var a, b, c := Ranked(front, First), Ranked(front, NewShape), Ranked(front, Repeat);
    EventsOfOneMore(front, last);
    SplitOneMore(a, b, c, EventsIn(front), last.event);
    RankedOneMore(front, last, First);
    RankedOneMore(front, last, NewShape);
    RankedOneMore(front, last, Repeat);
  }

  lemma SplitOneMore<T>(a: seq<T>, b: seq<T>, c: seq<T>, all: seq<T>, last: T)
    requires multiset(a) + (multiset(b) + multiset(c)) == multiset(all)
    ensures multiset(a + [last]) + (multiset(b + []) + multiset(c + [])) == multiset(all + [last])
    ensures multiset(a + []) + (multiset(b + [last]) + multiset(c + [])) == multiset(all + [last])
    ensures multiset(a + []) + (multiset(b + []) + multiset(c + [last])) == multiset(all + [last])
  {
    assert a + [] == a && b + [] == b && c + [] == c;
  }

  lemma KeptIsAPermutation(g: Grammar, values: seq<Event>)
    ensures multiset(Kept(g, values)) == multiset(EventsIn(Window(g, values)))
  {
    var seen := Window(g, values);
    if |seen| > MAX_EVENTS {
      RanksSplit(seen);
      var first := Ranked(seen, First);
      var others := Ranked(seen, NewShape) + Ranked(seen, Repeat);
      ProbesSplit(others);
      assert multiset(Order(seen))
             == multiset(first) + multiset(WithProbe(others, true)) + multiset(WithProbe(others, false));
    }
  }

  /******* Projecting twice *******/

  lemma EventSettles(g: Grammar, e: Event)
    requires e.Event?
    ensures EventOf(g, EventOf(g, e)) == EventOf(g, e)
  {
    FixtureSettles(e.fixture);
    HostSettles(e.host);
    HostSettles(e.stage);
    IdentifiersSettle(g, e.functions, 8);
    ResponseSettles(g, e.response, IsScope(e.address.scope));
    LostRefsAreReported(e.address);
    PartsSettle(e);
  }

  lemma PartsSettle(e: Event)
    requires e.Event?
    ensures e.http.Some? ==> HttpOf(Some(HttpOf(e.http))) == HttpOf(e.http)
    ensures e.reader.Some? ==> ReaderOf(ReaderOf(e.reader.value)) == ReaderOf(e.reader.value)
    ensures ProbeOf(ProbeOf(e.probe)) == ProbeOf(e.probe)
    ensures e.media.Some? ==> MediaOf(Some(MediaOf(e.media, 65536)), 65536) == MediaOf(e.media, 65536)
  {
    ObservationsSettle(e.http, e.media, 65536, e.probe,
                       if e.reader.Some? then e.reader.value
                       else Reader(Missing, Missing, Missing, Missing, Missing, None));
  }

  ghost predicate Fixed(g: Grammar, e: Event) {
    e.Event? && EventOf(g, e) == e
  }

  ghost predicate OnlyScopes(omitted: set<Leaf>) {
    forall leaf :: leaf in omitted ==> IsScope(leaf)
  }

  lemma FlaggingKeepsFixed(g: Grammar, e: Event, omitted: set<Leaf>)
    requires Fixed(g, e) && OnlyScopes(omitted)
    ensures Fixed(g, Flagged(e, omitted))
  {
  }

  lemma KeptIsFixed(g: Grammar, values: seq<Event>, k: nat)
    requires k < |Kept(g, values)|
    ensures Fixed(g, Kept(g, values)[k])
  {
    KeptIsAPermutation(g, values);
    var seen := Window(g, values);
    var event := Kept(g, values)[k];
    assert event in multiset(EventsIn(seen));
    var i :| 0 <= i < |seen| && EventsIn(seen)[i] == event;
    var j := ProjectedFrom(Take(values, WINDOW), Seeing(g), i);
    EventSettles(g, Take(values, WINDOW)[j]);
  }

  lemma SeenUnchanged(g: Grammar, e: Event)
    requires Fixed(g, e)
    ensures Sees(Seeing(g), e)
  {
  }

  ghost predicate Sees(see: Event -> Option<Seen>, e: Event) {
    see(e).Some? && see(e).value.event == e
  }

  ghost predicate AllSee(see: Event -> Option<Seen>, events: seq<Event>) {
    forall i :: 0 <= i < |events| ==> Sees(see, events[i])
  }

  lemma {:induction false} SeenInOrder(events: seq<Event>, see: Event -> Option<Seen>)
    requires AllSee(see, events)
    ensures EventsIn(Project(events, see)) == events
  {
    if events != [] {
      var n := |events| - 1;
      SeenInOrder(events[..n], see);
      EventsOfOneMore(Project(events[..n], see), see(events[n]).value);
      assert events == events[..n] + [events[n]];
    }
  }

  lemma EvidenceIsFixed(g: Grammar, values: seq<Event>, i: nat)
    requires i < |Evidence(g, values)|
    ensures Fixed(g, Evidence(g, values)[i])
    ensures Sees(Seeing(g), Evidence(g, values)[i])
  {
    KeptIsFixed(g, values, i);
    FlaggingKeepsFixed(g, Kept(g, values)[i], Omitted(g, values));
    SeenUnchanged(g, Evidence(g, values)[i]);
  }

  lemma EvidenceIsSeen(g: Grammar, values: seq<Event>)
    ensures AllSee(Seeing(g), Evidence(g, values))
  {
    var see, out := Seeing(g), Evidence(g, values);
    forall i | 0 <= i < |out|
      ensures Sees(see, out[i])
    {
      EvidenceIsFixed(g, values, i);
    }
  }

  // The projection may be applied to its own output: labels, flags and order all stay.
  lemma EvidenceIsIdempotent(g: Grammar, values: seq<Event>)
    ensures Evidence(g, Evidence(g, values)) == Evidence(g, values)
  {
    var once := Evidence(g, values);
    EvidenceIsSeen(g, values);
    SeenInOrder(once, Seeing(g));
    assert Take(once, WINDOW) == once;
    assert Kept(g, once) == once;
    NothingOmitted(g, once);
  }

  lemma NothingOmitted(g: Grammar, once: seq<Event>)
    requires |once| <= MAX_EVENTS && Kept(g, once) == once
    ensures Evidence(g, once) == once
  {
    assert Omitted(g, once) == {};
  }

  /******* Phases and truncation *******/

  function PhasesOf(events: seq<Event>): set<(Leaf, Leaf)> {
    set e | e in events :: Phase(e)
  }

  ghost predicate DistinctPhases(events: seq<Event>) {
    forall i, j :: 0 <= i < j < |events| ==> Phase(events[i]) != Phase(events[j])
  }

  lemma {:induction false} FirstCoversPhases(seen: seq<Seen>)
    ensures DistinctPhases(Ranked(seen, First))
    ensures PhasesOf(Ranked(seen, First)) == Phases(seen)
  {
    if seen != [] {
      var front, last := seen[..|seen| - 1], seen[|seen| - 1];
      FirstCoversPhases(front);
      PhasesOfOneMore(front, last);
      assert seen == front + [last];
      AppendPhase(Ranked(front, First), last.event);
    }
  }

  lemma PhasesOfOneMore(front: seq<Seen>, last: Seen)
    ensures Phases(front + [last]) == Phases(front) + {Phase(last.event)}
  {
  }

  lemma AppendPhase(events: seq<Event>, last: Event)
    requires DistinctPhases(events)
    ensures PhasesOf(events + [last]) == PhasesOf(events) + {Phase(last)}
    ensures Phase(last) !in PhasesOf(events) ==> DistinctPhases(events + [last])
  {
  }

  lemma FlagsKeepPhases(events: seq<Event>, omitted: set<Leaf>)
    ensures PhasesOf(AllFlagged(events, omitted)) == PhasesOf(events)
  {
    var out := AllFlagged(events, omitted);
    forall i | 0 <= i < |events|
      ensures Phase(out[i]) == Phase(events[i]) && out[i] in out && events[i] in events
    {
    }
  }

  // An event repeats a phase already kept only when every phase that was observed is kept.
  lemma RepeatsComeLast(g: Grammar, values: seq<Event>, i: nat)
    requires i < |Evidence(g, values)|
    requires Phase(Evidence(g, values)[i]) in PhasesOf(Evidence(g, values)[..i])
    ensures PhasesOf(EventsIn(Window(g, values))) == PhasesOf(Evidence(g, values))
  {
    var seen, kept := Window(g, values), Kept(g, values);
    var taken, omitted := Take(kept, MAX_EVENTS), Omitted(g, values);
    FlagsKeepPhases(taken, omitted);
    FlagsKeepPhases(taken[..i], omitted);
    assert AllFlagged(taken[..i], omitted) == Evidence(g, values)[..i];
    if |seen| > MAX_EVENTS {
      FirstCoversPhases(seen);
      var first := Ranked(seen, First);
      assert kept[..|first|] == first;
      RepeatIsBeyondFirst(kept, first, i);
      PhasesReached(g, values, first);
    }
  }

  lemma RepeatIsBeyondFirst(kept: seq<Event>, first: seq<Event>, i: nat)
    requires first <= kept && DistinctPhases(first)
    requires i < |kept| && Phase(kept[i]) in PhasesOf(kept[..i])
    ensures i >= |first|
  {
  }

  lemma PhasesReached(g: Grammar, values: seq<Event>, first: seq<Event>)
    requires |first| <= |Take(Kept(g, values), MAX_EVENTS)| && Kept(g, values)[..|first|] == first
    requires PhasesOf(first) == Phases(Window(g, values))
    ensures PhasesOf(Take(Kept(g, values), MAX_EVENTS)) == PhasesOf(EventsIn(Window(g, values)))
  {
    var kept, seen := Kept(g, values), Window(g, values);
    KeptIsAPermutation(g, values);
    PartsOfPermutation(kept, EventsIn(seen), MAX_EVENTS);
    assert Take(kept, MAX_EVENTS)[..|first|] == first;
    SamePhases(seen);
    PhasesBetween(first, Take(kept, MAX_EVENTS), EventsIn(seen));
  }

  lemma PartsOfPermutation(kept: seq<Event>, all: seq<Event>, limit: nat)
    requires multiset(kept) == multiset(all)
    ensures forall e :: e in Take(kept, limit) ==> e in all
  {
    assert forall e :: e in kept ==> e in multiset(kept);
    assert forall e :: e in Take(kept, limit) ==> e in kept;
  }

  lemma PhasesBetween(first: seq<Event>, taken: seq<Event>, all: seq<Event>)
    requires first <= taken && (forall e :: e in taken ==> e in all) && PhasesOf(first) == PhasesOf(all)
    ensures PhasesOf(taken) == PhasesOf(all)
  {
    assert forall e :: e in first ==> e in taken[..|first|];
  }

  lemma SamePhases(seen: seq<Seen>)
    ensures PhasesOf(EventsIn(seen)) == Phases(seen)
  {
  }

  // Every scope that lost an event, in the window or beyond it, is flagged on all its kept
  // events; every other kept event is unchanged.
  lemma LossyScopesAreFlagged(g: Grammar, values: seq<Event>, i: nat, lost: Event)
    requires i < |Evidence(g, values)|
    requires IsScope(Scope(lost))
    requires lost in Beyond(values, WINDOW)
             || multiset(EventsIn(Window(g, values)))[lost] > multiset(Take(Kept(g, values), MAX_EVENTS))[lost]
    ensures Scope(Evidence(g, values)[i]) == Scope(lost)
            ==> Evidence(g, values)[i].Event? && Evidence(g, values)[i].address.traceTruncated == Bool(true)
    ensures Scope(Evidence(g, values)[i]) !in Omitted(g, values) ==> Evidence(g, values)[i] == Kept(g, values)[i]
  {
    var kept := Kept(g, values);
    if lost !in Beyond(values, WINDOW) {
      KeptIsAPermutation(g, values);
      CutSplits(kept, MAX_EVENTS);
      LostIsBeyond(Take(kept, MAX_EVENTS), Beyond(kept, MAX_EVENTS), lost);
    }
    assert Scope(lost) in Omitted(g, values);
  }

  lemma LostIsBeyond(taken: seq<Event>, beyond: seq<Event>, lost: Event)
    requires multiset(taken + beyond)[lost] > multiset(taken)[lost]
    ensures lost in beyond
  {
  }
}
