/**
 The hosted wire format: arbitrary data values travel as JSON text. The schema pass opens the
 way for them, and restoring a response undoes the encoding.
 */
module HostedWire {
  import opened Basics

  datatype Json = Null | Bool(flag: bool) | Number(n: int) | Str(text: string) | Arr(items: Items) | Obj(fields: Fields)

  datatype Items = NoItems | Item(head: Json, tail: Items)

  datatype Fields = NoFields | Field(key: string, value: Json, rest: Fields)

  const MAX_TEXT := 24000

  function Get(fields: Fields, key: string): Option<Json> {
    if fields.NoFields? then None
    else if fields.key == key then Some(fields.value)
    else Get(fields.rest, key)
  }

  function Without(fields: Fields, key: string): Fields {
    if fields.NoFields? then NoFields
    else if fields.key == key then Without(fields.rest, key)
    else Field(fields.key, fields.value, Without(fields.rest, key))
  }

  function Append(fields: Fields, key: string, value: Json): Fields {
    if fields.NoFields? then Field(key, value, NoFields)
    else Field(fields.key, fields.value, Append(fields.rest, key, value))
  }

  function Put(fields: Fields, key: string, value: Json): Fields {
    if fields.NoFields? then Field(key, value, NoFields)
    else if fields.key == key then Field(key, value, fields.rest)
    else Field(fields.key, fields.value, Put(fields.rest, key, value))
  }

  function Keys(fields: Fields): Items {
    if fields.NoFields? then NoItems else Item(Str(fields.key), Keys(fields.rest))
  }

  lemma {:induction false} GetWithout(fields: Fields, key: string, other: string)
    ensures Get(Without(fields, key), other) == if other == key then None else Get(fields, other)
  {
    if fields.Field? { GetWithout(fields.rest, key, other); }
  }

  lemma {:induction false} GetAppended(fields: Fields, key: string, value: Json, other: string)
    ensures Get(Append(fields, key, value), other)
            == if Get(fields, other).Some? then Get(fields, other) else if other == key then Some(value) else None
  {
    if fields.Field? { GetAppended(fields.rest, key, value, other); }
  }

  lemma {:induction false} WithoutAbsent(fields: Fields, key: string)
    requires Get(fields, key).None?
    ensures Without(fields, key) == fields
  {
    if fields.Field? { WithoutAbsent(fields.rest, key); }
  }

  lemma {:induction false} WithoutAppended(fields: Fields, key: string, value: Json, other: string)
    ensures Without(Append(fields, key, value), other)
            == if other == key then Without(fields, other) else Append(Without(fields, other), key, value)
  {
    if fields.Field? { WithoutAppended(fields.rest, key, value, other); }
  }

  /******* The schema pass *******/

  function TextSchema(): Json {
    Obj(Field("type", Str("string"), Field("maxLength", Number(MAX_TEXT), NoFields)))
  }

  // A scope that is pinned to provider data.
  predicate IsDataScope(scope: Option<Json>) {
    scope.Some? && scope.value.Obj?
    && (|| Get(scope.value.fields, "const") == Some(Str("provider_data"))
        || Get(scope.value.fields, "enum") == Some(Arr(Item(Str("provider_data"), NoItems))))
  }

  predicate HasOpenValue(properties: Fields) {
    IsDataScope(Get(properties, "scope")) && Get(properties, "value") == Some(Obj(NoFields))
  }

  // A node describing a data mutation with an unconstrained value.
  predicate Eligible(fields: Fields) {
    match Get(fields, "properties")
    case Some(Obj(properties)) => HasOpenValue(properties)
    case _ => false
  }

  predicate IsObjectKey(key: string) {
    key == "properties" || key == "$defs"
  }

  predicate IsNodeKey(key: string) {
    key == "items" || key == "additionalProperties"
  }

  predicate IsListKey(key: string) {
    key == "anyOf" || key == "oneOf" || key == "allOf"
  }

  function Closed(properties: Fields): Fields {
    Put(Without(properties, "value"), "value_json", TextSchema())
  }

  function KeysOf(properties: Option<Json>): Items {
    if properties.Some? && properties.value.Obj? then Keys(properties.value.fields) else NoItems
  }

  // The rewritten node, and whether anything has been encoded yet.
  function Visit(node: Json, encoded: bool): (Json, bool)
    decreases node, 1
  {
    if !node.Obj? then (node, encoded)
    else
      var eligible := Eligible(node.fields);
      var visited := VisitFields(node.fields, eligible, encoded || eligible);
      (Obj(if eligible then Put(visited.0, "required", Arr(KeysOf(Get(visited.0, "properties")))) else visited.0),
       visited.1)
  }

  function VisitFields(fields: Fields, eligible: bool, encoded: bool): (Fields, bool)
    decreases fields, 0
  {
    if fields.NoFields? then (NoFields, encoded)
    else
      var child := VisitField(fields.key, fields.value, eligible, encoded);
      var rest := VisitFields(fields.rest, eligible, child.1);
      (Field(fields.key, child.0, rest.0), rest.1)
  }

  function VisitField(key: string, value: Json, eligible: bool, encoded: bool): (Json, bool)
    decreases value, 2
  {
    if IsObjectKey(key) && value.Obj? then
      var inner := VisitValues(value.fields, encoded);
      (Obj(if eligible && key == "properties" then Closed(inner.0) else inner.0), inner.1)
    else if IsNodeKey(key) then Visit(value, encoded)
    else if IsListKey(key) && value.Arr? then
      var inner := VisitItems(value.items, encoded);
      (Arr(inner.0), inner.1)
    else (value, encoded)
  }

  function VisitValues(fields: Fields, encoded: bool): (Fields, bool)
    decreases fields, 0
  {
    if fields.NoFields? then (NoFields, encoded)
    else
      var child := Visit(fields.value, encoded);
      var rest := VisitValues(fields.rest, child.1);
      (Field(fields.key, child.0, rest.0), rest.1)
  }

  function VisitItems(items: Items, encoded: bool): (Items, bool)
    decreases items, 0
  {
    if items.NoItems? then (NoItems, encoded)
    else
      var child := Visit(items.head, encoded);
      var rest := VisitItems(items.tail, child.1);
      (Item(child.0, rest.0), rest.1)
  }

  function HostedWireSchema(schema: Json): (Json, bool) {
    Visit(schema, false)
  }

  /******* Eligible nodes within reach *******/

  predicate Reaches(node: Json)
    decreases node, 1
  {
    node.Obj? && (Eligible(node.fields) || FieldsReach(node.fields))
  }

  predicate FieldsReach(fields: Fields)
    decreases fields, 0
  {
    fields.Field? && (FieldReaches(fields.key, fields.value) || FieldsReach(fields.rest))
  }

  predicate FieldReaches(key: string, value: Json)
    decreases value, 2
  {
    if IsObjectKey(key) && value.Obj? then ValuesReach(value.fields)
    else if IsNodeKey(key) then Reaches(value)
    else IsListKey(key) && value.Arr? && ItemsReach(value.items)
  }

  predicate ValuesReach(fields: Fields)
    decreases fields, 0
  {
    fields.Field? && (Reaches(fields.value) || ValuesReach(fields.rest))
  }

  predicate ItemsReach(items: Items)
    decreases items, 0
  {
    items.Item? && (Reaches(items.head) || ItemsReach(items.tail))
  }

  /******* The flag says exactly whether an eligible node was within reach *******/

  lemma {:induction false} FlagIsExact(node: Json, encoded: bool)
    ensures Visit(node, encoded).1 == (encoded || Reaches(node))
    decreases node, 1
  {
    if node.Obj? {
      FieldsFlag(node.fields, Eligible(node.fields), encoded || Eligible(node.fields));
    }
  }

  lemma {:induction false} FieldsFlag(fields: Fields, eligible: bool, encoded: bool)
    ensures VisitFields(fields, eligible, encoded).1 == (encoded || FieldsReach(fields))
    decreases fields, 0
  {
    if fields.Field? {
      FieldFlag(fields.key, fields.value, eligible, encoded);
      FieldsFlag(fields.rest, eligible, VisitField(fields.key, fields.value, eligible, encoded).1);
    }
  }

  lemma {:induction false} FieldFlag(key: string, value: Json, eligible: bool, encoded: bool)
    ensures VisitField(key, value, eligible, encoded).1 == (encoded || FieldReaches(key, value))
    decreases value, 2
  {
    if IsObjectKey(key) && value.Obj? { ValuesFlag(value.fields, encoded); }
    if IsNodeKey(key) { FlagIsExact(value, encoded); }
    if IsListKey(key) && value.Arr? { ItemsFlag(value.items, encoded); }
  }

  lemma {:induction false} ValuesFlag(fields: Fields, encoded: bool)
    ensures VisitValues(fields, encoded).1 == (encoded || ValuesReach(fields))
    decreases fields, 0
  {
    if fields.Field? {
      FlagIsExact(fields.value, encoded);
      ValuesFlag(fields.rest, Visit(fields.value, encoded).1);
    }
  }

  lemma {:induction false} ItemsFlag(items: Items, encoded: bool)
    ensures VisitItems(items, encoded).1 == (encoded || ItemsReach(items))
    decreases items, 0
  {
    if items.Item? {
      FlagIsExact(items.head, encoded);
      ItemsFlag(items.tail, Visit(items.head, encoded).1);
    }
  }

  /******* Without an eligible node nothing changes *******/

  lemma {:induction false} NothingToEncode(node: Json, encoded: bool)
    requires !Reaches(node)
    ensures Visit(node, encoded).0 == node
    decreases node, 1
  {
    if node.Obj? { FieldsUnchanged(node.fields, encoded); }
  }

  lemma {:induction false} FieldsUnchanged(fields: Fields, encoded: bool)
    requires !FieldsReach(fields)
    ensures VisitFields(fields, false, encoded).0 == fields
    decreases fields, 0
  {
    if fields.Field? {
      FieldUnchanged(fields.key, fields.value, encoded);
      FieldsUnchanged(fields.rest, VisitField(fields.key, fields.value, false, encoded).1);
    }
  }

  lemma {:induction false} FieldUnchanged(key: string, value: Json, encoded: bool)
    requires !FieldReaches(key, value)
    ensures VisitField(key, value, false, encoded).0 == value
    decreases value, 2
  {
    if IsObjectKey(key) && value.Obj? { ValuesUnchanged(value.fields, encoded); }
    if IsNodeKey(key) { NothingToEncode(value, encoded); }
    if IsListKey(key) && value.Arr? { ItemsUnchanged(value.items, encoded); }
  }

  lemma {:induction false} ValuesUnchanged(fields: Fields, encoded: bool)
    requires !ValuesReach(fields)
    ensures VisitValues(fields, encoded).0 == fields
    decreases fields, 0
  {
    if fields.Field? {
      NothingToEncode(fields.value, encoded);
      ValuesUnchanged(fields.rest, Visit(fields.value, encoded).1);
    }
  }

  lemma {:induction false} ItemsUnchanged(items: Items, encoded: bool)
    requires !ItemsReach(items)
    ensures VisitItems(items, encoded).0 == items
    decreases items, 0
  {
    if items.Item? {
      NothingToEncode(items.head, encoded);
      ItemsUnchanged(items.tail, Visit(items.head, encoded).1);
    }
  }

  /******* The pass leaves no eligible node within reach *******/

  lemma {:induction false} GetPut(fields: Fields, key: string, value: Json, other: string)
    ensures Get(Put(fields, key, value), other) == if other == key then Some(value) else Get(fields, other)
  {
    if fields.Field? { GetPut(fields.rest, key, value, other); }
  }

  lemma {:induction false} GetVisited(fields: Fields, eligible: bool, encoded: bool, key: string) returns (before: bool)
    ensures Get(VisitFields(fields, eligible, encoded).0, key)
            == if Get(fields, key).None? then None
               else Some(VisitField(key, Get(fields, key).value, eligible, before).0)
  {
    before := encoded;
    if fields.Field? && fields.key != key {
      before := GetVisited(fields.rest, eligible, VisitField(fields.key, fields.value, eligible, encoded).1, key);
    }
  }

  lemma {:induction false} GetVisitedValue(fields: Fields, encoded: bool, key: string) returns (before: bool)
    ensures Get(VisitValues(fields, encoded).0, key)
            == if Get(fields, key).None? then None else Some(Visit(Get(fields, key).value, before).0)
  {
    before := encoded;
    if fields.Field? && fields.key != key {
      before := GetVisitedValue(fields.rest, Visit(fields.value, encoded).1, key);
    }
  }

  // A key the pass does not descend into keeps its value.
  lemma PlainKeyStays(node: Json, encoded: bool, key: string)
    requires node.Obj? && !IsObjectKey(key) && !IsNodeKey(key) && !IsListKey(key) && key != "required"
    ensures Visit(node, encoded).0.Obj? && Get(Visit(node, encoded).0.fields, key) == Get(node.fields, key)
  {
    var eligible := Eligible(node.fields);
    var before := GetVisited(node.fields, eligible, encoded || eligible, key);
    var visited := VisitFields(node.fields, eligible, encoded || eligible).0;
    GetPut(visited, "required", Arr(KeysOf(Get(visited, "properties"))), key);
  }

  lemma ScopeStays(scope: Json, encoded: bool)
    ensures IsDataScope(Some(Visit(scope, encoded).0)) == IsDataScope(Some(scope))
  {
    if scope.Obj? {
      PlainKeyStays(scope, encoded, "const");
      PlainKeyStays(scope, encoded, "enum");
    }
  }

  lemma OpenStays(properties: Fields, encoded: bool)
    ensures HasOpenValue(VisitValues(properties, encoded).0) == HasOpenValue(properties)
  {
    var scopeBefore := GetVisitedValue(properties, encoded, "scope");
    var valueBefore := GetVisitedValue(properties, encoded, "value");
    if Get(properties, "scope").Some? { ScopeStays(Get(properties, "scope").value, scopeBefore); }
  }

  lemma ClosedIsClosed(properties: Fields)
    ensures !HasOpenValue(Closed(properties))
  {
    GetWithout(properties, "value", "value");
    GetPut(Without(properties, "value"), "value_json", TextSchema(), "value");
  }

  lemma {:induction false} KeysStay(properties: Fields, encoded: bool, key: string)
    ensures Get(VisitValues(properties, encoded).0, key).Some? <==> Get(properties, key).Some?
  {
    var before := GetVisitedValue(properties, encoded, key);
  }

  // An eligible node trades its open value for bounded text, keeps its other properties, and
  // requires every property it now has.
  lemma EligibleNodeIsClosed(node: Json, encoded: bool, key: string)
    requires node.Obj? && Eligible(node.fields)
    ensures var out := Visit(node, encoded).0;
            && out.Obj?
            && Get(out.fields, "properties").Some? && Get(out.fields, "properties").value.Obj?
            && var properties := Get(out.fields, "properties").value.fields;
               && Get(properties, "value").None?
               && Get(properties, "value_json") == Some(TextSchema())
               && (key != "value" && key != "value_json"
                   ==> (Get(properties, key).Some? <==> Get(Get(node.fields, "properties").value.fields, key).Some?))
               && Get(out.fields, "required") == Some(Arr(Keys(properties)))
  {
    var before := GetVisited(node.fields, true, true, "properties");
    var visited := VisitFields(node.fields, true, true).0;
    var inner := VisitValues(Get(node.fields, "properties").value.fields, before).0;
    KeysStay(Get(node.fields, "properties").value.fields, before, key);
    GetPut(visited, "required", Arr(KeysOf(Get(visited, "properties"))), "properties");
    GetPut(visited, "required", Arr(KeysOf(Get(visited, "properties"))), "required");
    GetWithout(inner, "value", key);
    GetWithout(inner, "value", "value");
    GetPut(Without(inner, "value"), "value_json", TextSchema(), key);
    GetPut(Without(inner, "value"), "value_json", TextSchema(), "value");
    GetPut(Without(inner, "value"), "value_json", TextSchema(), "value_json");
  }

  lemma NoLongerEligible(fields: Fields, encoded: bool)
    ensures !Eligible(VisitFields(fields, Eligible(fields), encoded).0)
  {
    var before := GetVisited(fields, Eligible(fields), encoded, "properties");
    match Get(fields, "properties")
    case Some(Obj(properties)) =>
      ClosedIsClosed(VisitValues(properties, before).0);
      OpenStays(properties, before);
    case _ =>
  }

  lemma {:induction false} PutReachesNothing(fields: Fields, value: Json)
    requires !FieldsReach(fields)
    ensures !FieldsReach(Put(fields, "required", value))
  {
    if fields.Field? { PutReachesNothing(fields.rest, value); }
  }

  lemma {:induction false} ClosedReachesNothing(properties: Fields)
    requires !ValuesReach(properties)
    ensures !ValuesReach(Without(properties, "value")) && !ValuesReach(Closed(properties))
  {
    if properties.Field? { ClosedReachesNothing(properties.rest); }
    TextSchemaReachesNothing(Without(properties, "value"));
  }

  lemma {:induction false} TextSchemaReachesNothing(properties: Fields)
    requires !ValuesReach(properties)
    ensures !ValuesReach(Put(properties, "value_json", TextSchema()))
  {
    var limit := Field("maxLength", Number(MAX_TEXT), NoFields);
    assert Get(limit, "properties").None? && !FieldsReach(limit);
    assert !Reaches(TextSchema());
    if properties.Field? && properties.key != "value_json" { TextSchemaReachesNothing(properties.rest); }
  }

  lemma {:induction false} NothingLeft(node: Json, encoded: bool)
    ensures !Reaches(Visit(node, encoded).0)
    decreases node, 1
  {
    if node.Obj? {
      var eligible := Eligible(node.fields);
      var visited := VisitFields(node.fields, eligible, encoded || eligible).0;
      var required := Arr(KeysOf(Get(visited, "properties")));
      FieldsLeft(node.fields, eligible, encoded || eligible);
      NoLongerEligible(node.fields, encoded || eligible);
      PutReachesNothing(visited, required);
      GetPut(visited, "required", required, "properties");
    }
  }

  lemma {:induction false} FieldsLeft(fields: Fields, eligible: bool, encoded: bool)
    ensures !FieldsReach(VisitFields(fields, eligible, encoded).0)
    decreases fields, 0
  {
    if fields.Field? {
      FieldLeft(fields.key, fields.value, eligible, encoded);
      FieldsLeft(fields.rest, eligible, VisitField(fields.key, fields.value, eligible, encoded).1);
    }
  }

  lemma {:induction false} FieldLeft(key: string, value: Json, eligible: bool, encoded: bool)
    ensures !FieldReaches(key, VisitField(key, value, eligible, encoded).0)
    decreases value, 2
  {
    if IsObjectKey(key) && value.Obj? {
      ValuesLeft(value.fields, encoded);
      ClosedReachesNothing(VisitValues(value.fields, encoded).0);
    }
    if IsNodeKey(key) { NothingLeft(value, encoded); }
    if IsListKey(key) && value.Arr? { ItemsLeft(value.items, encoded); }
  }

  lemma {:induction false} ValuesLeft(fields: Fields, encoded: bool)
    ensures !ValuesReach(VisitValues(fields, encoded).0)
    decreases fields, 0
  {
    if fields.Field? {
      NothingLeft(fields.value, encoded);
      ValuesLeft(fields.rest, Visit(fields.value, encoded).1);
    }
  }

  lemma {:induction false} ItemsLeft(items: Items, encoded: bool)
    ensures !ItemsReach(VisitItems(items, encoded).0)
    decreases items, 0
  {
    if items.Item? {
      NothingLeft(items.head, encoded);
      ItemsLeft(items.tail, Visit(items.head, encoded).1);
    }
  }

  // The pass reports exactly whether it encoded something, and a second pass finds nothing to do.
  lemma SchemaPassIsIdempotent(schema: Json)
    ensures var (prepared, encoded) := HostedWireSchema(schema);
            && encoded == Reaches(schema)
            && (!encoded ==> prepared == schema)
            && HostedWireSchema(prepared) == (prepared, false)
  {
    FlagIsExact(schema, false);
    var prepared := HostedWireSchema(schema).0;
    NothingLeft(schema, false);
    FlagIsExact(prepared, false);
    NothingToEncode(prepared, false);
    if !Reaches(schema) { NothingToEncode(schema, false); }
  }

  /******* Everything else stays in place *******/

  // What becomes of a node does not depend on what was encoded before.
  lemma {:induction false} FlagIsOnlyCarried(node: Json, encoded: bool)
    ensures Visit(node, encoded).0 == HostedWireSchema(node).0
    decreases node, 1
  {
    if node.Obj? {
      var eligible := Eligible(node.fields);
      FieldsCarry(node.fields, eligible, encoded || eligible, eligible);
    }
  }

  lemma {:induction false} FieldsCarry(fields: Fields, eligible: bool, a: bool, b: bool)
    ensures VisitFields(fields, eligible, a).0 == VisitFields(fields, eligible, b).0
    decreases fields, 0
  {
    if fields.Field? {
      FieldCarries(fields.key, fields.value, eligible, a, b);
      FieldsCarry(fields.rest, eligible, VisitField(fields.key, fields.value, eligible, a).1,
                  VisitField(fields.key, fields.value, eligible, b).1);
    }
  }

  lemma {:induction false} FieldCarries(key: string, value: Json, eligible: bool, a: bool, b: bool)
    ensures VisitField(key, value, eligible, a).0 == VisitField(key, value, eligible, b).0
    decreases value, 2
  {
    if IsObjectKey(key) && value.Obj? { ValuesCarry(value.fields, a, b); }
    if IsNodeKey(key) {
      FlagIsOnlyCarried(value, a);
      FlagIsOnlyCarried(value, b);
    }
    if IsListKey(key) && value.Arr? { ItemsCarry(value.items, a, b); }
  }

  lemma {:induction false} ValuesCarry(fields: Fields, a: bool, b: bool)
    ensures VisitValues(fields, a).0 == VisitValues(fields, b).0
    decreases fields, 0
  {
    if fields.Field? {
      FlagIsOnlyCarried(fields.value, a);
      FlagIsOnlyCarried(fields.value, b);
      ValuesCarry(fields.rest, Visit(fields.value, a).1, Visit(fields.value, b).1);
    }
  }

  lemma {:induction false} ItemsCarry(items: Items, a: bool, b: bool)
    ensures VisitItems(items, a).0 == VisitItems(items, b).0
    decreases items, 0
  {
    if items.Item? {
      FlagIsOnlyCarried(items.head, a);
      FlagIsOnlyCarried(items.head, b);
      ItemsCarry(items.tail, Visit(items.head, a).1, Visit(items.head, b).1);
    }
  }

  function Nth(items: Items, i: nat): Option<Json> {
    if items.NoItems? then None else if i == 0 then Some(items.head) else Nth(items.tail, i - 1)
  }

  lemma {:induction false} ItemIsRewritten(items: Items, encoded: bool, i: nat)
    ensures Nth(VisitItems(items, encoded).0, i)
            == if Nth(items, i).None? then None else Some(HostedWireSchema(Nth(items, i).value).0)
  {
    if items.Item? {
      FlagIsOnlyCarried(items.head, encoded);
      if i > 0 { ItemIsRewritten(items.tail, Visit(items.head, encoded).1, i - 1); }
    }
  }

  lemma {:induction false} KeysKeepOrder(fields: Fields, eligible: bool, encoded: bool)
    ensures Keys(VisitFields(fields, eligible, encoded).0) == Keys(fields)
    ensures Keys(VisitValues(fields, encoded).0) == Keys(fields)
  {
    if fields.Field? {
      KeysKeepOrder(fields.rest, eligible, VisitField(fields.key, fields.value, eligible, encoded).1);
      KeysKeepOrder(fields.rest, eligible, Visit(fields.value, encoded).1);
    }
  }

  lemma ValueIsRewritten(fields: Fields, encoded: bool, key: string)
    ensures Get(VisitValues(fields, encoded).0, key)
            == if Get(fields, key).None? then None else Some(HostedWireSchema(Get(fields, key).value).0)
  {
    var before := GetVisitedValue(fields, encoded, key);
    if Get(fields, key).Some? { FlagIsOnlyCarried(Get(fields, key).value, before); }
  }

  // What stands under a key behind the pass: a node under a node key is rewritten, so is every one of
  // a list, in order, and every one of an object, under its key; anything else stays.
  ghost predicate Rewritten(key: string, value: Json, open: bool, after: Json) {
    if IsNodeKey(key) then after == HostedWireSchema(value).0
    else if IsListKey(key) && value.Arr? then
      after.Arr? && forall i :: Nth(after.items, i)
                                == if Nth(value.items, i).None? then None
                                   else Some(HostedWireSchema(Nth(value.items, i).value).0)
    else if IsObjectKey(key) && value.Obj? then
      && after.Obj? && (open || Keys(after.fields) == Keys(value.fields))
      && forall name :: (open ==> name != "value" && name != "value_json") ==>
           Get(after.fields, name)
           == if Get(value.fields, name).None? then None
              else Some(HostedWireSchema(Get(value.fields, name).value).0)
    else after == value
  }

  lemma FieldIsRewritten(key: string, value: Json, eligible: bool, encoded: bool)
    ensures Rewritten(key, value, eligible && key == "properties", VisitField(key, value, eligible, encoded).0)
  {
    if IsObjectKey(key) && value.Obj? {
      ObjectIsRewritten(value.fields, eligible && key == "properties", encoded);
    } else if IsNodeKey(key) {
      FlagIsOnlyCarried(value, encoded);
    } else if IsListKey(key) && value.Arr? {
      forall i
        ensures Nth(VisitItems(value.items, encoded).0, i)
                == if Nth(value.items, i).None? then None else Some(HostedWireSchema(Nth(value.items, i).value).0)
      {
        ItemIsRewritten(value.items, encoded, i);
      }
    }
  }

  lemma ObjectIsRewritten(fields: Fields, open: bool, encoded: bool)
    ensures var inner := VisitValues(fields, encoded).0;
            Rewritten("properties", Obj(fields), open, Obj(if open then Closed(inner) else inner))
  {
    var inner := VisitValues(fields, encoded).0;
    KeysKeepOrder(fields, false, encoded);
    forall name
      ensures Get(inner, name)
              == if Get(fields, name).None? then None else Some(HostedWireSchema(Get(fields, name).value).0)
      ensures name != "value" && name != "value_json" ==> Get(Closed(inner), name) == Get(inner, name)
    {
      ValueIsRewritten(fields, encoded, name);
      GetWithout(inner, "value", name);
      GetPut(Without(inner, "value"), "value_json", TextSchema(), name);
    }
  }

  // Main result on a node: every key it has stays, in its place, with what the pass makes of its value;
  // an eligible node also requires what it has.
  lemma NodeIsRewritten(fields: Fields, key: string)
    ensures var eligible := Eligible(fields);
            var out := HostedWireSchema(Obj(fields)).0;
            && out.Obj? && (eligible || Keys(out.fields) == Keys(fields))
            && ((eligible ==> key != "required") ==>
                  if Get(fields, key).None? then Get(out.fields, key).None?
                  else Get(out.fields, key).Some?
                       && Rewritten(key, Get(fields, key).value, eligible && key == "properties",
                                    Get(out.fields, key).value))
  {
    var eligible := Eligible(fields);
    var visited := VisitFields(fields, eligible, eligible).0;
    KeysKeepOrder(fields, eligible, eligible);
    var before := GetVisited(fields, eligible, eligible, key);
    GetPut(visited, "required", Arr(KeysOf(Get(visited, "properties"))), key);
    if Get(fields, key).Some? { FieldIsRewritten(key, Get(fields, key).value, eligible, before); }
  }

  /******* Responses *******/

  // json.dumps and json.loads on finite data.
  datatype Codec = Codec(dumps: Json -> string, loads: string -> Option<Json>)

  ghost predicate RoundTrips(codec: Codec) {
    forall v :: codec.loads(codec.dumps(v)) == Some(v)
  }

  datatype Reason = BadEncoding | InvalidJson | DeleteNeedsNull

  datatype Result<T> = Ok(value: T) | Err(reason: Reason)

  predicate IsData(fields: Fields) {
    Get(fields, "scope") == Some(Str("provider_data"))
  }

  predicate IsDelete(fields: Fields) {
    Get(fields, "operation") == Some(Str("delete"))
  }

  function RestoreData(codec: Codec, fields: Fields): Result<Json> {
    var raw := Get(fields, "value_json");
    if raw.None? || !raw.value.Str? || |raw.value.text| > MAX_TEXT || Get(fields, "value").Some? then Err(BadEncoding)
    else
      var decoded := codec.loads(raw.value.text);
      var restored := Without(fields, "value_json");
      if decoded.None? then Err(InvalidJson)
      else if !IsDelete(fields) then Ok(Obj(Append(restored, "value", decoded.value)))
      else if decoded.value != Null then Err(DeleteNeedsNull)
      else Ok(Obj(restored))
  }

  function Restore(codec: Codec, wire: Json): Result<Json>
    decreases wire, 1
  {
    match wire
    case Arr(items) =>
      var restored := RestoreItems(codec, items);
      if restored.Ok? then Ok(Arr(restored.value)) else Err(restored.reason)
    case Obj(fields) =>
      if IsData(fields) then RestoreData(codec, fields)
      else
        var restored := RestoreFields(codec, fields);
        if restored.Ok? then Ok(Obj(restored.value)) else Err(restored.reason)
    case _ => Ok(wire)
  }

  function RestoreItems(codec: Codec, items: Items): Result<Items>
    decreases items, 0
  {
    if items.NoItems? then Ok(NoItems)
    else
      var head := Restore(codec, items.head);
      if head.Err? then Err(head.reason)
      else
        var tail := RestoreItems(codec, items.tail);
        if tail.Err? then tail else Ok(Item(head.value, tail.value))
  }

  function RestoreFields(codec: Codec, fields: Fields): Result<Fields>
    decreases fields, 0
  {
    if fields.NoFields? then Ok(NoFields)
    else
      var value := Restore(codec, fields.value);
      if value.Err? then Err(value.reason)
      else
        var rest := RestoreFields(codec, fields.rest);
        if rest.Err? then rest else Ok(Field(fields.key, value.value, rest.value))
  }

  /******* The encoding a response undergoes, and the local contract *******/

  // The data a mutation carries: deletions carry none, which travels as null.
  function Payload(fields: Fields): Json {
    if IsDelete(fields) || Get(fields, "value").None? then Null else Get(fields, "value").value
  }

  function Encode(codec: Codec, v: Json): Json
    decreases v, 1
  {
    match v
    case Arr(items) => Arr(EncodeItems(codec, items))
    case Obj(fields) =>
      if IsData(fields) then Obj(Append(Without(fields, "value"), "value_json", Str(codec.dumps(Payload(fields)))))
      else Obj(EncodeFields(codec, fields))
    case _ => v
  }

  function EncodeItems(codec: Codec, items: Items): Items
    decreases items, 0
  {
    if items.NoItems? then NoItems else Item(Encode(codec, items.head), EncodeItems(codec, items.tail))
  }

  function EncodeFields(codec: Codec, fields: Fields): Fields
    decreases fields, 0
  {
    if fields.NoFields? then NoFields
    else Field(fields.key, Encode(codec, fields.value), EncodeFields(codec, fields.rest))
  }

  // Every data mutation has a value unless it deletes, and no wire field.
  predicate IsLocal(v: Json)
    decreases v, 1
  {
    match v
    case Arr(items) => ItemsLocal(items)
    case Obj(fields) =>
      if IsData(fields) then Get(fields, "value_json").None? && (IsDelete(fields) <==> Get(fields, "value").None?)
      else FieldsLocal(fields)
    case _ => true
  }

  predicate ItemsLocal(items: Items)
    decreases items, 0
  {
    items.Item? ==> IsLocal(items.head) && ItemsLocal(items.tail)
  }

  predicate FieldsLocal(fields: Fields)
    decreases fields, 0
  {
    fields.Field? ==> IsLocal(fields.value) && FieldsLocal(fields.rest)
  }

  // Every encoded value fits the wire field.
  predicate Fits(codec: Codec, v: Json)
    decreases v, 1
  {
    match v
    case Arr(items) => ItemsFit(codec, items)
    case Obj(fields) => if IsData(fields) then |codec.dumps(Payload(fields))| <= MAX_TEXT else FieldsFit(codec, fields)
    case _ => true
  }

  predicate ItemsFit(codec: Codec, items: Items)
    decreases items, 0
  {
    items.Item? ==> Fits(codec, items.head) && ItemsFit(codec, items.tail)
  }

  predicate FieldsFit(codec: Codec, fields: Fields)
    decreases fields, 0
  {
    fields.Field? ==> Fits(codec, fields.value) && FieldsFit(codec, fields.rest)
  }

  // The same response with each data mutation's value as its last field; an object of the
  // program does not order its fields.
  function ValueLast(v: Json): Json
    decreases v, 1
  {
    match v
    case Arr(items) => Arr(ItemsLast(items))
    case Obj(fields) =>
      if !IsData(fields) then Obj(FieldsLast(fields))
      else if Get(fields, "value").None? then v
      else Obj(Append(Without(fields, "value"), "value", Get(fields, "value").value))
    case _ => v
  }

  function ItemsLast(items: Items): Items
    decreases items, 0
  {
    if items.NoItems? then NoItems else Item(ValueLast(items.head), ItemsLast(items.tail))
  }

  function FieldsLast(fields: Fields): Fields
    decreases fields, 0
  {
    if fields.NoFields? then NoFields else Field(fields.key, ValueLast(fields.value), FieldsLast(fields.rest))
  }

  lemma ValueLastReordersOnly(fields: Fields, key: string)
    requires IsData(fields)
    ensures ValueLast(Obj(fields)).Obj? && Get(ValueLast(Obj(fields)).fields, key) == Get(fields, key)
  {
    if Get(fields, "value").Some? {
      GetAppended(Without(fields, "value"), "value", Get(fields, "value").value, key);
      GetWithout(fields, "value", key);
    }
  }

  /******* The round trip *******/

  lemma DataRoundTrip(codec: Codec, fields: Fields)
    requires RoundTrips(codec) && IsData(fields) && IsLocal(Obj(fields))
    ensures var wire := Encode(codec, Obj(fields));
            && wire.Obj? && IsData(wire.fields)
            && Restore(codec, wire) == if Fits(codec, Obj(fields)) then Ok(ValueLast(Obj(fields))) else Err(BadEncoding)
  {
    var bare, text := Without(fields, "value"), Str(codec.dumps(Payload(fields)));
    var wire := Append(bare, "value_json", text);
    GetOnWire(fields, text, "scope");
    GetOnWire(fields, text, "operation");
    GetOnWire(fields, text, "value");
    GetOnWire(fields, text, "value_json");
    WithoutAppended(bare, "value_json", text, "value_json");
    GetWithout(fields, "value", "value_json");
    WithoutAbsent(bare, "value_json");
    if Get(fields, "value").None? { WithoutAbsent(fields, "value"); }
  }

  lemma GetOnWire(fields: Fields, text: Json, key: string)
    ensures Get(Append(Without(fields, "value"), "value_json", text), key)
            == if key == "value" then None
               else if Get(fields, key).Some? then Get(fields, key)
               else if key == "value_json" then Some(text) else None
  {
    GetAppended(Without(fields, "value"), "value_json", text, key);
    GetWithout(fields, "value", key);
  }

  // Restoring the encoding of a local response gives the response back exactly when every
  // encoded value fits; otherwise it is refused.
  lemma {:induction false} RoundTrip(codec: Codec, v: Json)
    requires RoundTrips(codec) && IsLocal(v)
    ensures Restore(codec, Encode(codec, v)) == if Fits(codec, v) then Ok(ValueLast(v)) else Err(BadEncoding)
    decreases v, 1
  {
    match v
    case Arr(items) => ItemsRoundTrip(codec, items);
    case Obj(fields) =>
      if IsData(fields) {
        DataRoundTrip(codec, fields);
      } else {
        FieldsRoundTrip(codec, fields);
        EncodingKeepsScope(codec, fields);
      }
    case _ =>
  }

  lemma {:induction false} ItemsRoundTrip(codec: Codec, items: Items)
    requires RoundTrips(codec) && ItemsLocal(items)
    ensures RestoreItems(codec, EncodeItems(codec, items))
            == if ItemsFit(codec, items) then Ok(ItemsLast(items)) else Err(BadEncoding)
    decreases items, 0
  {
    if items.Item? {
      RoundTrip(codec, items.head);
      ItemsRoundTrip(codec, items.tail);
    }
  }

  lemma {:induction false} FieldsRoundTrip(codec: Codec, fields: Fields)
    requires RoundTrips(codec) && FieldsLocal(fields)
    ensures RestoreFields(codec, EncodeFields(codec, fields))
            == if FieldsFit(codec, fields) then Ok(FieldsLast(fields)) else Err(BadEncoding)
    decreases fields, 0
  {
    if fields.Field? {
      RoundTrip(codec, fields.value);
      FieldsRoundTrip(codec, fields.rest);
    }
  }

  // Encoding the values of an object makes no data mutation of it.
  lemma {:induction false} EncodingKeepsScope(codec: Codec, fields: Fields)
    ensures Get(EncodeFields(codec, fields), "scope") == Some(Str("provider_data")) <==> IsData(fields)
    ensures Get(EncodeFields(codec, fields), "scope").Some? <==> Get(fields, "scope").Some?
  {
    if fields.Field? { EncodingKeepsScope(codec, fields.rest); }
  }

  /******* Whatever is restored meets the local contract *******/

  lemma DataRestoresToLocal(codec: Codec, fields: Fields)
    requires IsData(fields) && RestoreData(codec, fields).Ok?
    ensures IsLocal(RestoreData(codec, fields).value)
  {
    var restored := Without(fields, "value_json");
    var decoded := codec.loads(Get(fields, "value_json").value.text).value;
    GetWithout(fields, "value_json", "scope");
    GetWithout(fields, "value_json", "operation");
    GetWithout(fields, "value_json", "value");
    GetWithout(fields, "value_json", "value_json");
    GetAppended(restored, "value", decoded, "scope");
    GetAppended(restored, "value", decoded, "operation");
    GetAppended(restored, "value", decoded, "value");
    GetAppended(restored, "value", decoded, "value_json");
  }

  lemma {:induction false} RestoredIsLocal(codec: Codec, wire: Json)
    requires Restore(codec, wire).Ok?
    ensures IsLocal(Restore(codec, wire).value)
    decreases wire, 1
  {
    match wire
    case Arr(items) => ItemsRestoredLocal(codec, items);
    case Obj(fields) =>
      if IsData(fields) {
        DataRestoresToLocal(codec, fields);
      } else {
        FieldsRestoredLocal(codec, fields);
        RestoringKeepsScope(codec, fields);
      }
    case _ =>
  }

  lemma {:induction false} ItemsRestoredLocal(codec: Codec, items: Items)
    requires RestoreItems(codec, items).Ok?
    ensures ItemsLocal(RestoreItems(codec, items).value)
    decreases items, 0
  {
    if items.Item? {
      RestoredIsLocal(codec, items.head);
      ItemsRestoredLocal(codec, items.tail);
    }
  }

  lemma {:induction false} FieldsRestoredLocal(codec: Codec, fields: Fields)
    requires RestoreFields(codec, fields).Ok?
    ensures FieldsLocal(RestoreFields(codec, fields).value)
    decreases fields, 0
  {
    if fields.Field? {
      RestoredIsLocal(codec, fields.value);
      FieldsRestoredLocal(codec, fields.rest);
    }
  }

  lemma {:induction false} RestoringKeepsScope(codec: Codec, fields: Fields)
    requires RestoreFields(codec, fields).Ok?
    ensures Get(RestoreFields(codec, fields).value, "scope") == Some(Str("provider_data")) <==> IsData(fields)
  {
    if fields.Field? { RestoringKeepsScope(codec, fields.rest); }
  }

  /******* What is refused, and what the parts become *******/

  // The text of a data mutation: within the bound, and no value beside it.
  function WireText(fields: Fields): Option<string> {
    match Get(fields, "value_json")
    case Some(Str(text)) => if |text| <= 24000 && Get(fields, "value").None? then Some(text) else None
    case _ => None
  }

  // A mutation that deletes carries null, any other carries data.
  predicate IsAcceptable(codec: Codec, fields: Fields) {
    match WireText(fields)
    case None => false
    case Some(text) => codec.loads(text).Some? && (IsDelete(fields) ==> codec.loads(text).value == Null)
  }

  // A data mutation is refused for its text, for what the text holds, or for a deletion with data. Else
  // it has its data as value, if it does not delete, and every other field as before.
  lemma DataIsRestoredExactly(codec: Codec, fields: Fields, key: string)
    requires IsData(fields)
    ensures Restore(codec, Obj(fields)) == Err(BadEncoding) <==> WireText(fields).None?
    ensures Restore(codec, Obj(fields)) == Err(InvalidJson)
            <==> WireText(fields).Some? && codec.loads(WireText(fields).value).None?
    ensures Restore(codec, Obj(fields)).Ok? <==> IsAcceptable(codec, fields)
    ensures IsAcceptable(codec, fields) ==>
              var r := Restore(codec, Obj(fields)).value;
              r.Obj? && Get(r.fields, key)
                        == if key == "value_json" || (key == "value" && IsDelete(fields)) then None
                           else if key == "value" then codec.loads(WireText(fields).value) else Get(fields, key)
  {
    var raw := Get(fields, "value_json");
    GetWithout(fields, "value_json", key);
    if raw.Some? && raw.value.Str? && codec.loads(raw.value.text).Some? {
      GetAppended(Without(fields, "value_json"), "value", codec.loads(raw.value.text).value, key);
    }
  }

  // Every data mutation is acceptable.
  predicate Restorable(codec: Codec, wire: Json)
    decreases wire, 1
  {
    match wire
    case Arr(items) => ItemsRestorable(codec, items)
    case Obj(fields) => if IsData(fields) then IsAcceptable(codec, fields) else FieldsRestorable(codec, fields)
    case _ => true
  }

  predicate ItemsRestorable(codec: Codec, items: Items)
    decreases items, 0
  {
    items.Item? ==> Restorable(codec, items.head) && ItemsRestorable(codec, items.tail)
  }

  predicate FieldsRestorable(codec: Codec, fields: Fields)
    decreases fields, 0
  {
    fields.Field? ==> Restorable(codec, fields.value) && FieldsRestorable(codec, fields.rest)
  }

  // A response is refused exactly for a data mutation in it.
  lemma {:induction false} RestoredExactly(codec: Codec, wire: Json)
    ensures Restore(codec, wire).Ok? <==> Restorable(codec, wire)
    decreases wire, 1
  {
    match wire
    case Arr(items) => ItemsRestoredExactly(codec, items);
    case Obj(fields) =>
      if IsData(fields) { DataIsRestoredExactly(codec, fields, ""); } else { FieldsRestoredExactly(codec, fields); }
    case _ =>
  }

  lemma {:induction false} ItemsRestoredExactly(codec: Codec, items: Items)
    ensures RestoreItems(codec, items).Ok? <==> ItemsRestorable(codec, items)
    decreases items, 0
  {
    if items.Item? {
      RestoredExactly(codec, items.head);
      ItemsRestoredExactly(codec, items.tail);
    }
  }

  lemma {:induction false} FieldsRestoredExactly(codec: Codec, fields: Fields)
    ensures RestoreFields(codec, fields).Ok? <==> FieldsRestorable(codec, fields)
    decreases fields, 0
  {
    if fields.Field? {
      RestoredExactly(codec, fields.value);
      FieldsRestoredExactly(codec, fields.rest);
    }
  }

  ghost predicate IsRestored(codec: Codec, before: Option<Json>, after: Option<Json>) {
    if before.None? then after.None? else after.Some? && Restore(codec, before.value) == Ok(after.value)
  }

  // Items of a list and fields of an object that is no data mutation are restored in their places.
  ghost predicate PartsRestored(codec: Codec, wire: Json, r: Json, i: nat, key: string) {
    match wire
    case Arr(items) => r.Arr? && IsRestored(codec, Nth(items, i), Nth(r.items, i))
    case Obj(fields) =>
      IsData(fields)
      || (r.Obj? && Keys(r.fields) == Keys(fields) && IsRestored(codec, Get(fields, key), Get(r.fields, key)))
    case _ => r == wire
  }

  lemma PartsAreRestored(codec: Codec, wire: Json, i: nat, key: string)
    requires Restore(codec, wire).Ok?
    ensures PartsRestored(codec, wire, Restore(codec, wire).value, i, key)
  {
    match wire
    case Arr(items) => ItemIsRestored(codec, items, i);
    case Obj(fields) => if !IsData(fields) { FieldIsRestored(codec, fields, key); }
    case _ =>
  }

  lemma {:induction false} ItemIsRestored(codec: Codec, items: Items, i: nat)
    requires RestoreItems(codec, items).Ok?
    ensures IsRestored(codec, Nth(items, i), Nth(RestoreItems(codec, items).value, i))
  {
    if items.Item? && i > 0 { ItemIsRestored(codec, items.tail, i - 1); }
  }

  lemma {:induction false} FieldIsRestored(codec: Codec, fields: Fields, key: string)
    requires RestoreFields(codec, fields).Ok?
    ensures var out := RestoreFields(codec, fields).value;
            Keys(out) == Keys(fields) && IsRestored(codec, Get(fields, key), Get(out, key))
  {
    if fields.Field? { FieldIsRestored(codec, fields.rest, key); }
  }
}
