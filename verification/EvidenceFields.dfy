/**
 The parts of an observed network event, each projected onto bounded structural facts. A
 second projection of any part changes nothing.
 */
module EvidenceFields {
  import opened Basics
  import opened PythonText
  import opened Projection

  // One value of a decoded JSON document. Other carries what str() makes of it, "" if falsy.
  datatype Leaf = Missing | Null | Bool(flag: bool) | Int(n: int) | Str(text: string) | Other(rendered: string)

  datatype Listing = NoList | List(items: seq<Leaf>)

  // The parts of the identifier grammar that are regular expressions.
  datatype Grammar = Grammar(named: string -> bool, path: string -> bool)

  /******* Leaves *******/

  function TextOf(leaf: Leaf): string {
    match leaf
    case Missing => ""
    case Null => ""
    case Bool(flag) => if flag then "True" else ""
    case Int(n) => if n == 0 then "" else if n < 0 then "-" + Decimal(-n) else Decimal(n)
    case Str(text) => text
    case Other(rendered) => rendered
  }

  function Count(leaf: Leaf, maximum: nat): Leaf {
    if !leaf.Int? || leaf.n < 0 then Int(0) else if leaf.n > maximum then Int(maximum) else leaf
  }

  function OneOf(leaf: Leaf, allowed: set<string>, default: string): Leaf {
    if leaf.Str? && leaf.text in allowed then leaf else Str(default)
  }

  predicate IsScope(leaf: Leaf) {
    && leaf.Str? && |leaf.text| == 17 && leaf.text[0] == 's'
    && forall i :: 1 <= i < 17 ==> '0' <= leaf.text[i] <= '9' || 'a' <= leaf.text[i] <= 'f'
  }

  predicate IsDigit(c: char, low: char) {
    low <= c <= '9'
  }

  // r1 to r512
  predicate IsRef(leaf: Leaf) {
    leaf.Str? && IsRefText(leaf.text)
  }

  predicate IsRefText(text: string) {
    && 2 <= |text| <= 4 && text[0] == 'r' && IsDigit(text[1], '1')
    && (|text| >= 3 ==> IsDigit(text[2], '0'))
    && (|text| == 4 ==> IsDigit(text[3], '0')
                        && (text[1] <= '4' || (text[1] == '5'
                                               && (text[2] == '0' || (text[2] == '1' && text[3] <= '2')))))
  }

  function Status(leaf: Leaf): Leaf {
    if leaf.Int? && 100 <= leaf.n <= 599 then leaf else Null
  }

  // A flag that is present counts as raised unless it is a boolean.
  function Flag(leaf: Leaf): Leaf {
    if leaf == Missing || leaf.Bool? then leaf else Bool(true)
  }

  function Printable(text: string): string {
    if text == "" then ""
    else
      var last := text[|text| - 1];
      Printable(text[..|text| - 1]) + if last as int < 32 || last as int == 127 then "" else [last]
  }

  function Lower(text: string): string {
    seq(|text|, i requires 0 <= i < |text| => if 'A' <= text[i] <= 'Z' then (text[i] as int + 32) as char else text[i])
  }

  predicate IsHost(text: string) {
    1 <= |text| <= 160
    && forall c :: c in text ==> 'a' <= c <= 'z' || '0' <= c <= '9' || c == '.' || c == '-'
  }

  predicate IsStage(text: string) {
    1 <= |text| <= 40 && forall c :: c in text ==> 'a' <= c <= 'z' || c == '_'
  }

  function Fixture(leaf: Leaf): Leaf {
    Str(Take(Printable(TextOf(leaf)), 120))
  }

  function Host(leaf: Leaf): Leaf {
    Str(if IsHost(Lower(TextOf(leaf))) then Lower(TextOf(leaf)) else "")
  }

  function Stage(leaf: Leaf): Leaf {
    Str(if IsStage(TextOf(leaf)) then TextOf(leaf) else "")
  }

  predicate AllPrintable(text: string) {
    forall i :: 0 <= i < |text| ==> text[i] as int >= 32 && text[i] as int != 127
  }

  lemma {:induction false} PrintableHolds(text: string)
    ensures AllPrintable(Printable(text))
    ensures AllPrintable(text) ==> Printable(text) == text
  {
    if text != "" {
      PrintableHolds(text[..|text| - 1]);
      assert text == text[..|text| - 1] + [text[|text| - 1]];
    }
  }

  lemma FixtureSettles(leaf: Leaf)
    ensures Fixture(Fixture(leaf)) == Fixture(leaf)
  {
    var text := TextOf(leaf);
    PrintableHolds(text);
    PrintableHolds(Take(Printable(text), 120));
  }

  lemma LowerKeepsHosts(text: string)
    requires IsHost(text)
    ensures Lower(text) == text
  {
    assert forall i :: 0 <= i < |text| ==> text[i] in text;
  }

  lemma HostSettles(leaf: Leaf)
    ensures Host(Host(leaf)) == Host(leaf)
    ensures Stage(Stage(leaf)) == Stage(leaf)
  {
    var lower := Lower(TextOf(leaf));
    if IsHost(lower) { LowerKeepsHosts(lower); }
  }

  /******* Lists of names and enumerated words *******/

  function Naming(g: Grammar): Leaf -> Option<Leaf> {
    (leaf: Leaf) => if leaf.Str? && g.named(leaf.text) then Some(leaf) else None
  }

  function Identifiers(g: Grammar, listing: Listing, limit: nat): Listing {
    List(if listing.NoList? then [] else Take(Project(listing.items, Naming(g)), limit))
  }

  function Wording(allowed: set<string>): Leaf -> Option<Leaf> {
    (leaf: Leaf) => if leaf.Str? && leaf.text in allowed then Some(leaf) else None
  }

  function Words(listing: Listing, allowed: set<string>): Listing {
    List(if listing.NoList? then [] else Uniques(Project(Take(listing.items, 8), Wording(allowed))))
  }

  lemma IdentifiersSettle(g: Grammar, listing: Listing, limit: nat)
    ensures Identifiers(g, Identifiers(g, listing, limit), limit) == Identifiers(g, listing, limit)
  {
    if listing.List? { ProjectTwice(listing.items, Naming(g), limit); }
  }

  lemma WordsSettle(listing: Listing, allowed: set<string>)
    ensures Words(Words(listing, allowed), allowed) == Words(listing, allowed)
  {
    if listing.List? {
      var chosen := Project(Take(listing.items, 8), Wording(allowed));
      ProjectIsShorter(Take(listing.items, 8), Wording(allowed));
      ProjectedIsFixed(Take(listing.items, 8), Wording(allowed));
      UniquesHold(chosen);
      forall i | 0 <= i < |Uniques(chosen)|
        ensures Wording(allowed)(Uniques(chosen)[i]) == Some(Uniques(chosen)[i])
      {
        assert Uniques(chosen)[i] in chosen;
      }
      FixedStays(Uniques(chosen), Wording(allowed));
      DistinctStays(Uniques(chosen));
    }
  }

  /******* The address labels of an event *******/

  datatype Address = Address(scope: Leaf, refsTruncated: Leaf, traceTruncated: Leaf,
                             request: Leaf, response: Leaf, referer: Leaf)

  // A label that is present, not null, not blank and not well formed is lost.
  predicate LostRef(leaf: Leaf) {
    leaf != Missing && leaf != Null && leaf != Str("") && !IsRef(leaf)
  }

  function AddressFields(a: Address): Address {
    if !IsScope(a.scope) then Address(Missing, Missing, Missing, Missing, Missing, Missing)
    else
      Address(a.scope,
              if LostRef(a.request) || LostRef(a.response) || LostRef(a.referer)
              then Bool(true) else Flag(a.refsTruncated), Flag(a.traceTruncated),
              if IsRef(a.request) then a.request else Missing,
              if IsRef(a.response) then a.response else Missing,
              if IsRef(a.referer) then a.referer else Missing)
  }

  // Labels survive only inside a valid scope, and a lost one is always reported.
  lemma LostRefsAreReported(a: Address)
    ensures AddressFields(AddressFields(a)) == AddressFields(a)
    ensures IsScope(a.scope) && AddressFields(a).refsTruncated != Bool(true)
            ==> forall ref ::
                ref in {a.request, a.response, a.referer} ==> IsRef(ref) || ref in {Missing, Null, Str("")}
  {
  }

  /******* Markup labels *******/

  datatype RefRow = RefRow(attribute: string, refs: Listing)

  datatype Refs = NoRefs | NotADict | Refs(rows: seq<RefRow>)

  const MAX_REFS := 16

  function Reffing(): Leaf -> Option<Leaf> {
    (leaf: Leaf) => if IsRef(leaf) then Some(leaf) else None
  }

  function RefList(items: seq<Leaf>): seq<Leaf> {
    Take(Uniques(Project(items, Reffing())), MAX_REFS)
  }

  predicate HasOther(items: seq<Leaf>) {
    exists i :: 0 <= i < |items| && !IsRef(items[i])
  }

  predicate LosesRefs(items: seq<Leaf>) {
    HasOther(items) || |Uniques(Project(items, Reffing()))| > MAX_REFS
  }

  function Attributing(attributes: set<string>): RefRow -> Option<RefRow> {
    (row: RefRow) =>
      if row.attribute in attributes && row.refs.List?
      then Some(RefRow(row.attribute, List(RefList(row.refs.items)))) else None
  }

  predicate LosesRow(row: RefRow, attributes: set<string>) {
    row.attribute !in attributes || row.refs.NoList? || LosesRefs(row.refs.items)
  }

  predicate LosesAny(rows: seq<RefRow>, attributes: set<string>) {
    exists i :: 0 <= i < |rows| && LosesRow(rows[i], attributes)
  }

  function MarkupFlag(flag: Leaf, refs: Refs, attributes: set<string>): Leaf {
    match refs
    case NoRefs => Flag(flag)
    case NotADict => Bool(true)
    case Refs(rows) => if LosesAny(rows, attributes) then Bool(true) else Flag(flag)
  }

  function MarkupRefs(refs: Refs, attributes: set<string>): Refs {
    if refs.Refs? then Refs(Project(refs.rows, Attributing(attributes))) else NoRefs
  }

  method RefsOf(items: seq<Leaf>) returns (unique: seq<Leaf>, lost: bool)
    ensures unique == RefList(items) && lost == LosesRefs(items)
  {
    unique, lost := [], false;
    for i := 0 to |items|
      invariant unique == RefList(items[..i]) && lost == LosesRefs(items[..i])
    {
      RefsOfOneMore(items[..i], items[i]);
      assert items[..i + 1] == items[..i] + [items[i]];
      if !IsRef(items[i]) {
        lost := true;
      } else if items[i] !in unique {
        if |unique| < MAX_REFS {
          unique := unique + [items[i]];
        } else {
          lost := true;
        }
      }
    }
    assert items[..|items|] == items;
  }

  lemma RefsOfOneMore(front: seq<Leaf>, last: Leaf)
    ensures !IsRef(last) ==> RefList(front + [last]) == RefList(front) && LosesRefs(front + [last])
    ensures IsRef(last) && last in RefList(front)
            ==> RefList(front + [last]) == RefList(front) && LosesRefs(front + [last]) == LosesRefs(front)
    ensures IsRef(last) && last !in RefList(front) && |RefList(front)| < MAX_REFS
            ==> RefList(front + [last]) == RefList(front) + [last] && LosesRefs(front + [last]) == LosesRefs(front)
    ensures IsRef(last) && last !in RefList(front) && |RefList(front)| >= MAX_REFS
            ==> RefList(front + [last]) == RefList(front) && LosesRefs(front + [last])
  {
    OthersOfOneMore(front, last);
    ProjectOneMore(front, last, Reffing());
    if IsRef(last) {
      UniquesOfOneMore(Project(front, Reffing()), last);
    } else {
      assert Project(front, Reffing()) + [] == Project(front, Reffing());
    }
  }

  lemma OthersOfOneMore(front: seq<Leaf>, last: Leaf)
    ensures HasOther(front + [last]) <==> HasOther(front) || !IsRef(last)
  {
    var items := front + [last];
    assert items[|front|] == last;
    assert forall i :: 0 <= i < |front| ==> items[i] == front[i];
  }

  method RefRowOf(row: RefRow, attributes: set<string>) returns (kept: Option<RefRow>, lost: bool)
    ensures kept == Attributing(attributes)(row) && lost == LosesRow(row, attributes)
  {
    if row.attribute !in attributes || row.refs.NoList? {
      return None, true;
    }
    var unique: seq<Leaf>;
    unique, lost := RefsOf(row.refs.items);
    kept := Some(RefRow(row.attribute, List(unique)));
  }

  method MarkupAddressFields(flag: Leaf, refs: Refs, attributes: set<string>) returns (outFlag: Leaf, outRefs: Refs)
    ensures outFlag == MarkupFlag(flag, refs, attributes)
    ensures outRefs == MarkupRefs(refs, attributes)
  {
    outFlag, outRefs := Flag(flag), NoRefs;
    if refs.NoRefs? {
      return;
    }
    if refs.NotADict? {
      outFlag := Bool(true);
      return;
    }
    var rows := refs.rows;
    var projected: seq<RefRow> := [];
    for i := 0 to |rows|
      invariant projected == Project(rows[..i], Attributing(attributes))
      invariant outFlag == if LosesAny(rows[..i], attributes) then Bool(true) else Flag(flag)
    {
      var row := rows[i];
      LosesOneMore(rows[..i], row, attributes);
      ProjectOneMore(rows[..i], row, Attributing(attributes));
      assert rows[..i + 1] == rows[..i] + [row];
      var kept, lost := RefRowOf(row, attributes);
      if lost {
        outFlag := Bool(true);
      }
      if kept.Some? {
        projected := projected + [kept.value];
      }
    }
    assert rows[..|rows|] == rows;
    outRefs := Refs(projected);
  }

  lemma LosesOneMore(front: seq<RefRow>, last: RefRow, attributes: set<string>)
    ensures LosesAny(front + [last], attributes)
            <==> LosesAny(front, attributes) || LosesRow(last, attributes)
  {
    var rows := front + [last];
    assert rows[|front|] == last;
    assert forall i :: 0 <= i < |front| ==> rows[i] == front[i];
  }

  lemma RefListSettles(items: seq<Leaf>)
    ensures RefList(RefList(items)) == RefList(items) && !LosesRefs(RefList(items))
  {
    var valid := Project(items, Reffing());
    ProjectedIsFixed(items, Reffing());
    UniquesHold(valid);
    var unique := RefList(items);
    forall i | 0 <= i < |unique|
      ensures Reffing()(unique[i]) == Some(unique[i])
    {
      assert Uniques(valid)[i] in valid;
    }
    FixedStays(unique, Reffing());
    DistinctStays(unique);
  }

  lemma AttributingSettles(attributes: set<string>)
    ensures Settles(Attributing(attributes))
  {
    forall row: RefRow | Attributing(attributes)(row).Some?
      ensures RefList(RefList(row.refs.items)) == RefList(row.refs.items)
    {
      RefListSettles(row.refs.items);
    }
  }

  lemma KeptLosesNothing(rows: seq<RefRow>, attributes: set<string>)
    ensures !LosesAny(Project(rows, Attributing(attributes)), attributes)
  {
    var kept := Project(rows, Attributing(attributes));
    forall i | 0 <= i < |kept|
      ensures kept[i].attribute in attributes && kept[i].refs.List? && !LosesRefs(kept[i].refs.items)
    {
      var k := ProjectedFrom(rows, Attributing(attributes), i);
      RefListSettles(rows[k].refs.items);
    }
  }

  // A second pass keeps the labels and the flag.
  lemma MarkupSettles(flag: Leaf, refs: Refs, attributes: set<string>)
    ensures var f, r := MarkupFlag(flag, refs, attributes), MarkupRefs(refs, attributes);
            MarkupFlag(f, r, attributes) == f && MarkupRefs(r, attributes) == r
  {
    if refs.Refs? {
      AttributingSettles(attributes);
      ProjectedIsFixed(refs.rows, Attributing(attributes));
      FixedStays(Project(refs.rows, Attributing(attributes)), Attributing(attributes));
      KeptLosesNothing(refs.rows, attributes);
    }
  }

  /******* Player markup *******/

  const ATTRIBUTES := {"src", "data-src", "href", "value", "data-url", "data-link", "data-player", "data-embed",
                       "data-video", "data-code", "data-iframe", "data-source", "data-player-id", "data-index",
                       "data-server"}
  const KINDS := {"empty", "absolute_url", "relative_url", "fragment", "inline_markup", "escaped_markup",
                  "encoded_markup", "encoded_url", "other"}
  const SHAPES := {"image_extension", "script_extension", "style_extension", "media_extension", "embed_route",
                   "page_extension", "other", "unknown"}
  const ORIGINS := {"same_origin", "cross_origin", "unknown"}
  const MARKUP_TAGS := {"iframe", "video", "source", "a", "button", "option", "div", "li", "input"}
  const MAX_ROWS := 8

  datatype KindRow = KindRow(attribute: string, kind: Leaf)

  datatype ShapeRow = ShapeRow(attribute: string, kind: Leaf, origin: Leaf)

  // A list entry that is no object behaves like one with every field missing.
  datatype MarkupRow = MarkupRow(tag: Leaf, kinds: Option<seq<KindRow>>, count: Leaf, distinct: Leaf,
                                 flag: Leaf, refs: Refs, shapes: Option<seq<ShapeRow>>)

  datatype Markup = Markup(rows: Option<seq<MarkupRow>>, sampled: Leaf, truncated: Leaf)

  function Kinding(): KindRow -> Option<KindRow> {
    (row: KindRow) => if row.attribute in ATTRIBUTES && row.kind.Str? && row.kind.text in KINDS then Some(row) else None
  }

  function KindsOf(kinds: Option<seq<KindRow>>): seq<KindRow> {
    if kinds.None? then [] else Take(Project(kinds.value, Kinding()), MAX_ROWS)
  }

  function AttributesOf(kinds: seq<KindRow>): set<string> {
    set row | row in kinds :: row.attribute
  }

  function ShapeOf(shapes: seq<ShapeRow>, attribute: string): Option<ShapeRow> {
    if shapes == [] then None
    else if shapes[0].attribute == attribute then
      if && shapes[0].kind.Str? && shapes[0].kind.text in SHAPES
         && shapes[0].origin.Str? && shapes[0].origin.text in ORIGINS then Some(shapes[0]) else None
    else ShapeOf(shapes[1..], attribute)
  }

  function Shaping(shapes: seq<ShapeRow>): KindRow -> Option<ShapeRow> {
    (row: KindRow) => ShapeOf(shapes, row.attribute)
  }

  function ShapesOf(shapes: Option<seq<ShapeRow>>, kinds: seq<KindRow>): Option<seq<ShapeRow>> {
    if shapes.None? || Project(kinds, Shaping(shapes.value)) == [] then None
    else Some(Project(kinds, Shaping(shapes.value)))
  }

  function Least(a: Leaf, b: Leaf): Leaf {
    if a.Int? && b.Int? && b.n < a.n then b else a
  }

  function RowOf(row: MarkupRow, allowRefs: bool): Option<MarkupRow> {
    var kinds := KindsOf(row.kinds);
    if !row.tag.Str? || row.tag.text !in MARKUP_TAGS || kinds == [] then None
    else
      Some(MarkupRow(row.tag, Some(kinds), Count(row.count, 128),
                     Least(Count(row.count, 128), Count(row.distinct, 128)),
                     if allowRefs then MarkupFlag(row.flag, row.refs, AttributesOf(kinds)) else Missing,
                     if allowRefs then MarkupRefs(row.refs, AttributesOf(kinds)) else NoRefs,
                     ShapesOf(row.shapes, kinds)))
  }

  function Rowing(allowRefs: bool): MarkupRow -> Option<MarkupRow> {
    (row: MarkupRow) => RowOf(row, allowRefs)
  }

  predicate HasRefs(row: MarkupRow, allowRefs: bool) {
    allowRefs && (row.flag != Missing || row.refs != NoRefs)
  }

  // A row loses labels when it goes and had some, or when its own labels were cut.
  predicate RowLoses(row: MarkupRow, allowRefs: bool) {
    match RowOf(row, allowRefs)
    case None => HasRefs(row, allowRefs)
    case Some(item) => item.flag == Bool(true)
  }

  predicate MarkupLoses(rows: seq<MarkupRow>, allowRefs: bool) {
    exists i :: 0 <= i < |rows| && if i < MAX_ROWS then RowLoses(rows[i], allowRefs) else HasRefs(rows[i], allowRefs)
  }

  function RowsIn(rows: Option<seq<MarkupRow>>): seq<MarkupRow> {
    if rows.None? then [] else rows.value
  }

  function MarkupOf(markup: Markup, allowRefs: bool): Markup {
    var rows := RowsIn(markup.rows);
    Markup(Some(Project(Take(rows, MAX_ROWS), Rowing(allowRefs))), Count(markup.sampled, 131072),
           Bool(markup.truncated == Bool(true) || MarkupLoses(rows, allowRefs)))
  }

  method PlayerMarkup(markup: Markup, allowRefs: bool) returns (out: Markup)
    ensures out == MarkupOf(markup, allowRefs)
  {
    var result: seq<MarkupRow>, lost := [], false;
    var rows := RowsIn(markup.rows);
    for i := 0 to |rows|
      invariant result == Project(Take(rows[..i], MAX_ROWS), Rowing(allowRefs))
      invariant lost == MarkupLoses(rows[..i], allowRefs)
    {
      MarkupOneMore(rows[..i], rows[i], allowRefs);
      assert rows[..i + 1] == rows[..i] + [rows[i]];
      if i >= MAX_ROWS {
        lost := lost || HasRefs(rows[i], allowRefs);
      } else {
        var item := RowOf(rows[i], allowRefs);
        if item.Some? {
          lost := lost || item.value.flag == Bool(true);
          result := result + [item.value];
        } else {
          lost := lost || HasRefs(rows[i], allowRefs);
        }
      }
    }
    assert rows[..|rows|] == rows;
    out := Markup(Some(result), Count(markup.sampled, 131072), Bool(markup.truncated == Bool(true) || lost));
  }

  lemma MarkupOneMore(front: seq<MarkupRow>, last: MarkupRow, allowRefs: bool)
    ensures MarkupLoses(front + [last], allowRefs)
            <==> MarkupLoses(front, allowRefs)
                 || if |front| < MAX_ROWS then RowLoses(last, allowRefs) else HasRefs(last, allowRefs)
    ensures Project(Take(front + [last], MAX_ROWS), Rowing(allowRefs))
            == Project(Take(front, MAX_ROWS), Rowing(allowRefs))
               + if |front| < MAX_ROWS && RowOf(last, allowRefs).Some? then [RowOf(last, allowRefs).value] else []
  {
    var rows := front + [last];
    assert rows[|front|] == last;
    assert forall i :: 0 <= i < |front| ==> rows[i] == front[i];
    if |front| < MAX_ROWS {
      assert Take(rows, MAX_ROWS) == rows && rows[..|front|] == front;
    } else {
      assert Take(rows, MAX_ROWS) == front[..MAX_ROWS] == Take(front, MAX_ROWS);
    }
  }

  lemma {:induction false} ShapeFound(kinds: seq<KindRow>, shapes: seq<ShapeRow>, attribute: string)
    requires ShapeOf(shapes, attribute).Some? && exists row :: row in kinds && row.attribute == attribute
    ensures ShapeOf(Project(kinds, Shaping(shapes)), attribute) == ShapeOf(shapes, attribute)
  {
    ShapeKeepsName(shapes, attribute);
    var n := |kinds| - 1;
    var front, last := kinds[..n], kinds[n];
    assert kinds == front + [last];
    ShapeKeepsName(shapes, last.attribute);
    if exists row :: row in front && row.attribute == attribute {
      ShapeFound(front, shapes, attribute);
      var shape := ShapeOf(shapes, last.attribute);
      ShapeInFront(Project(front, Shaping(shapes)), if shape.Some? then [shape.value] else [], attribute);
    } else {
      NoShape(front, shapes, attribute);
      ShapeBehind(Project(front, Shaping(shapes)), [ShapeOf(shapes, attribute).value], attribute);
    }
  }

  lemma {:induction false} ShapeKeepsName(shapes: seq<ShapeRow>, attribute: string)
    ensures ShapeOf(shapes, attribute).Some?
            ==> var shape := ShapeOf(shapes, attribute).value;
                shape.attribute == attribute && ShapeOf([shape], attribute) == Some(shape)
  {
    if shapes != [] { ShapeKeepsName(shapes[1..], attribute); }
  }

  ghost predicate Names(shapes: seq<ShapeRow>, attribute: string) {
    exists i :: 0 <= i < |shapes| && shapes[i].attribute == attribute
  }

  lemma {:induction false} ShapeInFront(a: seq<ShapeRow>, b: seq<ShapeRow>, attribute: string)
    requires ShapeOf(a, attribute).Some?
    ensures ShapeOf(a + b, attribute) == ShapeOf(a, attribute)
  {
    assert (a + b)[1..] == a[1..] + b;
    if a[0].attribute != attribute { ShapeInFront(a[1..], b, attribute); }
  }

  lemma {:induction false} ShapeBehind(a: seq<ShapeRow>, b: seq<ShapeRow>, attribute: string)
    requires !Names(a, attribute)
    ensures ShapeOf(a + b, attribute) == ShapeOf(b, attribute)
  {
    if a == [] {
      assert a + b == b;
    } else {
      assert (a + b)[1..] == a[1..] + b;
      assert a[0].attribute != attribute;
      ShapeBehind(a[1..], b, attribute);
    }
  }

  lemma NoShape(kinds: seq<KindRow>, shapes: seq<ShapeRow>, attribute: string)
    requires !exists row :: row in kinds && row.attribute == attribute
    ensures !Names(Project(kinds, Shaping(shapes)), attribute)
  {
    forall k | 0 <= k < |Project(kinds, Shaping(shapes))|
      ensures Project(kinds, Shaping(shapes))[k].attribute != attribute
    {
      var i := ProjectedFrom(kinds, Shaping(shapes), k);
      ShapeKeepsName(shapes, kinds[i].attribute);
      assert kinds[i] in kinds;
    }
  }

  lemma {:induction false} SameShapes(kinds: seq<KindRow>, shapes: seq<ShapeRow>, again: seq<ShapeRow>)
    requires forall i :: 0 <= i < |kinds| && ShapeOf(shapes, kinds[i].attribute).Some?
               ==> ShapeOf(again, kinds[i].attribute) == ShapeOf(shapes, kinds[i].attribute)
    requires forall i :: 0 <= i < |kinds| && ShapeOf(shapes, kinds[i].attribute).None?
               ==> ShapeOf(again, kinds[i].attribute).None?
    ensures Project(kinds, Shaping(again)) == Project(kinds, Shaping(shapes))
  {
    if kinds != [] {
      SameShapes(kinds[..|kinds| - 1], shapes, again);
      var last := kinds[|kinds| - 1];
      assert ShapeOf(again, last.attribute) == ShapeOf(shapes, last.attribute);
    }
  }

  lemma ShapeLost(kinds: seq<KindRow>, shapes: seq<ShapeRow>, attribute: string)
    requires ShapeOf(shapes, attribute).None?
    ensures !Names(Project(kinds, Shaping(shapes)), attribute)
  {
    forall k | 0 <= k < |Project(kinds, Shaping(shapes))|
      ensures Project(kinds, Shaping(shapes))[k].attribute != attribute
    {
      var i := ProjectedFrom(kinds, Shaping(shapes), k);
      ShapeKeepsName(shapes, kinds[i].attribute);
    }
  }

  lemma ShapesSettle(shapes: Option<seq<ShapeRow>>, kinds: seq<KindRow>)
    ensures ShapesOf(ShapesOf(shapes, kinds), kinds) == ShapesOf(shapes, kinds)
  {
    if shapes.Some? {
      var again := Project(kinds, Shaping(shapes.value));
      forall i | 0 <= i < |kinds|
        ensures ShapeOf(again, kinds[i].attribute) == ShapeOf(shapes.value, kinds[i].attribute)
      {
        var attribute := kinds[i].attribute;
        assert kinds[i] in kinds;
        if ShapeOf(shapes.value, attribute).Some? {
          ShapeFound(kinds, shapes.value, attribute);
        } else {
          ShapeLost(kinds, shapes.value, attribute);
          ShapeBehind(again, [], attribute);
          assert again + [] == again;
        }
      }
      SameShapes(kinds, shapes.value, again);
    }
  }

  lemma RowSettles(row: MarkupRow, allowRefs: bool)
    requires RowOf(row, allowRefs).Some?
    ensures RowOf(RowOf(row, allowRefs).value, allowRefs) == RowOf(row, allowRefs)
  {
    ProjectTwice(row.kinds.value, Kinding(), MAX_ROWS);
    var kinds := KindsOf(row.kinds);
    MarkupSettles(row.flag, row.refs, AttributesOf(kinds));
    ShapesSettle(row.shapes, kinds);
  }

  lemma MarkupProjectsOnce(markup: Markup, allowRefs: bool)
    ensures MarkupOf(MarkupOf(markup, allowRefs), allowRefs) == MarkupOf(markup, allowRefs)
  {
    forall row: MarkupRow | Rowing(allowRefs)(row).Some?
      ensures Rowing(allowRefs)(Rowing(allowRefs)(row).value) == Rowing(allowRefs)(row)
    {
      RowSettles(row, allowRefs);
    }
    assert Settles(Rowing(allowRefs));
    var rows := RowsIn(markup.rows);
    ProjectTwice(rows, Rowing(allowRefs), MAX_ROWS);
    LossIsKept(rows, allowRefs);
  }

  lemma LossIsKept(rows: seq<MarkupRow>, allowRefs: bool)
    requires Settles(Rowing(allowRefs))
    ensures var once := Project(Take(rows, MAX_ROWS), Rowing(allowRefs));
            |once| <= MAX_ROWS && (MarkupLoses(once, allowRefs) ==> MarkupLoses(rows, allowRefs))
  {
    var first := Take(rows, MAX_ROWS);
    var once := Project(first, Rowing(allowRefs));
    ProjectIsShorter(first, Rowing(allowRefs));
    ProjectedIsFixed(first, Rowing(allowRefs));
    forall k | 0 <= k < |once| && RowLoses(once[k], allowRefs)
      ensures MarkupLoses(rows, allowRefs)
    {
      var i := ProjectedFrom(first, Rowing(allowRefs), k);
      assert Rowing(allowRefs)(once[k]) == Some(once[k]);
      assert first[i] == rows[i] && RowLoses(rows[i], allowRefs);
    }
  }

  /******* Response structure *******/

  const TYPES := {"string", "number", "boolean", "null", "object", "array"}
  const TAGS := {"iframe", "script", "video", "source", "a", "button", "select", "option"}
  const CODES := {"GRAPHQL_VALIDATION_FAILED", "GRAPHQL_PARSE_FAILED", "BAD_USER_INPUT", "BAD_REQUEST",
                  "UNAUTHENTICATED",
                  "FORBIDDEN", "INTERNAL_SERVER_ERROR", "SERVICE_UNAVAILABLE", "PERSISTED_QUERY_NOT_FOUND",
                  "TOO_MANY_REQUESTS", "NOT_FOUND"}
  const ERRORS := {"schema_mismatch", "syntax", "auth", "rate_limit", "timeout", "not_found", "server_error", "unknown"}
  const STATES := {"missing", "null", "object", "array", "scalar"}
  const ROOTS := {"episode", "shows", "sources", "search", "media", "video", "results", "title"}
  const RESOURCES := {"absolute_url", "protocol_relative_url", "root_relative_url", "relative_path"}
  const ROLES := {"app_entry", "start_entry", "chunk", "other_script"}
  const LOCATIONS := {"src_attribute", "inline_import"}

  datatype FieldRow = FieldRow(path: Leaf, kind: Leaf)

  datatype Graphql = Graphql(errorCount: Leaf, codes: Listing, kinds: Listing, dataState: Leaf, nullRoots: Listing)

  datatype TagRow = TagRow(tag: Leaf, attributes: Listing)

  datatype InlineRow = InlineRow(name: Leaf, kind: Leaf, syntax: Leaf)

  datatype ScriptRow = ScriptRow(kind: Leaf, role: Leaf, location: Leaf)

  // The absent structure is also the empty one.
  datatype Response = NoResponse | Response(kind: Leaf, fields: Option<seq<FieldRow>>, graphql: Option<Graphql>,
                                            tags: Option<seq<TagRow>>, variables: Listing, player: Option<Markup>,
                                            inline: Option<seq<InlineRow>>, scripts: Option<seq<ScriptRow>>)

  predicate Is(leaf: Leaf, allowed: set<string>) {
    leaf.Str? && leaf.text in allowed
  }

  function FieldOf(g: Grammar, row: FieldRow): Option<FieldRow> {
    var path := Take(TextOf(row.path), 160);
    if g.path(path) && Is(row.kind, TYPES) then Some(FieldRow(Str(path), row.kind)) else None
  }

  function Fielding(g: Grammar): FieldRow -> Option<FieldRow> {
    (row: FieldRow) => FieldOf(g, row)
  }

  function Tagging(g: Grammar): TagRow -> Option<TagRow> {
    (row: TagRow) => if Is(row.tag, TAGS) then Some(TagRow(row.tag, Identifiers(g, row.attributes, 16))) else None
  }

  function Inlining(g: Grammar): InlineRow -> Option<InlineRow> {
    (row: InlineRow) =>
      if row.name.Str? && g.named(row.name.text) && Is(row.kind, TYPES) && Is(row.syntax, {"quoted", "bare"})
      then Some(row)
      else None
  }

  function Scripting(): ScriptRow -> Option<ScriptRow> {
    (row: ScriptRow) =>
      if Is(row.kind, RESOURCES) && Is(row.role, ROLES) && Is(row.location, LOCATIONS) then Some(row) else None
  }

  function Cut<T>(rows: Option<seq<T>>, limit: nat): seq<T> {
    if rows.None? then [] else Take(rows.value, limit)
  }

  function GraphqlOf(raw: Graphql): Graphql {
    Graphql(Count(raw.errorCount, 16), Words(raw.codes, CODES), Words(raw.kinds, ERRORS),
            OneOf(raw.dataState, STATES, "missing"), Words(raw.nullRoots, ROOTS))
  }

  function ResponseOf(g: Grammar, response: Response, allowRefs: bool): Response {
    if response.NoResponse? then NoResponse
    else if response.kind == Str("json") then
      Response(response.kind, Some(Project(Cut(response.fields, 16), Fielding(g))),
               if response.graphql.Some? then Some(GraphqlOf(response.graphql.value)) else None,
               None, NoList, None, None, None)
    else if response.kind == Str("html") then
      Response(response.kind, None, None, Some(Project(Cut(response.tags, 8), Tagging(g))),
               Identifiers(g, response.variables, 16),
               if response.player.Some? then Some(MarkupOf(response.player.value, allowRefs)) else None,
               if response.inline.Some? then Some(Project(Cut(response.inline, 12), Inlining(g))) else None,
               if response.scripts.Some? then Some(Project(Cut(response.scripts, 8), Scripting())) else None)
    else if Is(response.kind, {"text", "binary"})
    then Response(response.kind, None, None, None, NoList, None, None, None)
    else NoResponse
  }

  lemma CutTwice<T(!new)>(rows: Option<seq<T>>, project: T -> Option<T>, limit: nat)
    requires Settles(project)
    ensures var once := Project(Cut(rows, limit), project);
            Project(Cut(Some(once), limit), project) == once
  {
    ProjectTwice(if rows.Some? then rows.value else [], project, limit);
  }

  lemma FieldSettles(g: Grammar, row: FieldRow)
    requires FieldOf(g, row).Some?
    ensures FieldOf(g, FieldOf(g, row).value) == FieldOf(g, row)
  {
  }

  lemma FieldsSettle(g: Grammar, fields: Option<seq<FieldRow>>)
    ensures var once := Project(Cut(fields, 16), Fielding(g));
            Project(Cut(Some(once), 16), Fielding(g)) == once
  {
    forall row: FieldRow | Fielding(g)(row).Some?
      ensures Fielding(g)(Fielding(g)(row).value) == Fielding(g)(row)
    {
      FieldSettles(g, row);
    }
    assert Settles(Fielding(g));
    CutTwice(fields, Fielding(g), 16);
  }

  lemma GraphqlSettles(graphql: Graphql)
    ensures GraphqlOf(GraphqlOf(graphql)) == GraphqlOf(graphql)
  {
    WordsSettle(graphql.codes, CODES);
    WordsSettle(graphql.kinds, ERRORS);
    WordsSettle(graphql.nullRoots, ROOTS);
  }

  lemma TagsSettle(g: Grammar, tags: Option<seq<TagRow>>)
    ensures var once := Project(Cut(tags, 8), Tagging(g));
            Project(Cut(Some(once), 8), Tagging(g)) == once
  {
    forall row: TagRow | Tagging(g)(row).Some?
      ensures Tagging(g)(Tagging(g)(row).value) == Tagging(g)(row)
    {
      IdentifiersSettle(g, row.attributes, 16);
    }
    assert Settles(Tagging(g));
    CutTwice(tags, Tagging(g), 8);
  }

  lemma HtmlSettles(g: Grammar, response: Response, allowRefs: bool)
    requires response.Response? && response.kind == Str("html")
    ensures ResponseOf(g, ResponseOf(g, response, allowRefs), allowRefs) == ResponseOf(g, response, allowRefs)
  {
    TagsSettle(g, response.tags);
    IdentifiersSettle(g, response.variables, 16);
    if response.player.Some? { MarkupProjectsOnce(response.player.value, allowRefs); }
    CutTwice(response.inline, Inlining(g), 12);
    CutTwice(response.scripts, Scripting(), 8);
  }

  lemma ResponseSettles(g: Grammar, response: Response, allowRefs: bool)
    ensures ResponseOf(g, ResponseOf(g, response, allowRefs), allowRefs) == ResponseOf(g, response, allowRefs)
  {
    if response.Response? {
      if response.kind == Str("html") {
        HtmlSettles(g, response, allowRefs);
      } else {
        FieldsSettle(g, response.fields);
        if response.graphql.Some? { GraphqlSettles(response.graphql.value); }
      }
    }
  }

  /******* Media, HTTP and probe observations *******/

  datatype Http = Http(contentKind: Leaf, urlRelation: Leaf, bodyState: Leaf, pageSignal: Leaf, sampledBytes: Leaf)

  datatype Media = Media(signature: Leaf, readState: Leaf, cancelState: Leaf, duration: Leaf, bytes: Leaf)

  datatype Probe = Probe(attempted: Leaf, source: Leaf, template: Leaf, status: Leaf, outcome: Leaf,
                         media: Option<Media>, http: Option<Http>)

  datatype Reader = Reader(attempted: Leaf, profile: Leaf, header: Leaf, status: Leaf, outcome: Leaf,
                           http: Option<Http>)

  const OUTCOMES := {"response", "timeout", "error"}

  function HttpOf(http: Option<Http>): Http {
    var raw := if http.Some? then http.value else Http(Missing, Missing, Missing, Missing, Missing);
    Http(OneOf(raw.contentKind, {"html", "json", "text", "media", "binary", "unknown"}, "unknown"),
         OneOf(raw.urlRelation, {"same_url", "same_origin", "cross_origin", "unknown"}, "unknown"),
         OneOf(raw.bodyState, {"not_sampled", "sampled", "complete", "empty", "timeout", "error", "unavailable"},
               "unavailable"),
         OneOf(raw.pageSignal, {"challenge_markup", "captcha_markup", "access_denied_text", "not_found_text",
                                "rate_limit_text", "none", "unknown"}, "unknown"),
         Count(raw.sampledBytes, 8192))
  }

  function MediaOf(media: Option<Media>, limit: nat): Media {
    var raw := if media.Some? then media.value else Media(Missing, Missing, Missing, Missing, Missing);
    Media(OneOf(raw.signature, {"unknown", "mp4", "ebml", "mpegts", "hls", "html"}, "unknown"),
          OneOf(raw.readState, {"not_read", "data", "empty", "complete", "error"}, "not_read"),
          OneOf(raw.cancelState, {"not_requested", "requested", "complete", "error"}, "not_requested"),
          if raw.duration.Int? then Count(raw.duration, 1209600) else Null,
          Count(raw.bytes, limit))
  }

  function ProbeOf(probe: Option<Probe>): Option<Probe> {
    if probe.None? || !probe.value.attempted.Bool? || !IsRef(probe.value.source) || !IsRef(probe.value.template)
    then None
    else
      var raw := probe.value;
      var attempted := raw.attempted.flag;
      if !attempted && raw.outcome != Str("budget_exhausted") then None
      else
        var outcome := if attempted then OneOf(raw.outcome, OUTCOMES, "error") else raw.outcome;
        Some(Probe(raw.attempted, raw.source, raw.template,
                   if attempted && outcome == Str("response") then Status(raw.status) else Null, outcome,
                   Some(MediaOf(raw.media, 32768)), Some(HttpOf(raw.http))))
  }

  function ReaderOf(raw: Reader): Reader {
    var attempted := raw.attempted == Bool(true);
    var outcome := if attempted then OneOf(raw.outcome, OUTCOMES, "error")
                   else OneOf(raw.outcome, {"budget_exhausted"}, "missing_profile");
    Reader(Bool(attempted), Str("prior_successful_html"), Str("user-agent"),
           if attempted && outcome == Str("response") then Status(raw.status) else Null,
           outcome, Some(HttpOf(raw.http)))
  }

  lemma ObservationsSettle(http: Option<Http>, media: Option<Media>, limit: nat, probe: Option<Probe>, reader: Reader)
    ensures HttpOf(Some(HttpOf(http))) == HttpOf(http)
    ensures MediaOf(Some(MediaOf(media, limit)), limit) == MediaOf(media, limit)
    ensures ProbeOf(ProbeOf(probe)) == ProbeOf(probe)
    ensures ReaderOf(ReaderOf(reader)) == ReaderOf(reader)
  {
  }
}
