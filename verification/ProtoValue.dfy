/**
 Turning protobuf values into JSON without recursion: an explicit stack of
 suspended lists and structs, and one register for the value just finished.  The
 machine computes exactly the structural conversion.
 */
module ProtoValue {
  import opened Wrappers

  /** An IEEE double as the number conversion sees it. */
  datatype Double = Finite(value: real) | NotFinite

  datatype Proto =
    | Unset
    | NullValue
    | NumberValue(number: Double)
    | StringValue(text: string)
    | BoolValue(flag: bool)
    | StructValue(fields: seq<Field>)
    | ListValue(values: seq<Proto>)

  /** A struct's fields in the order its map iterates them. */
  datatype Field = Field(key: string, value: Proto)

  datatype Json =
    | JsonNull
    | JsonNumber(number: real)
    | JsonString(text: string)
    | JsonBool(flag: bool)
    | JsonObject(fields: map<string, Json>)
    | JsonArray(values: seq<Json>)

  // ---------------------------------------------------------------- the structural conversion

  /** The JSON a value stands for; None when a number has no JSON form. */
  function Convert(p: Proto): Option<Json>
    decreases p, 0
  {
    match p
    case Unset => Some(JsonNull)
    case NullValue => Some(JsonNull)
    case NumberValue(number) => if number.Finite? then Some(JsonNumber(number.value)) else None
    case StringValue(text) => Some(JsonString(text))
    case BoolValue(flag) => Some(JsonBool(flag))
    case ListValue(values) =>
      (match ConvertList(values) case None => None case Some(js) => Some(JsonArray(js)))
    case StructValue(fields) =>
      (match ConvertFields(fields, map[]) case None => None case Some(m) => Some(JsonObject(m)))
  }

  function ConvertList(ps: seq<Proto>): Option<seq<Json>>
    decreases ps, 1
  {
    if ps == [] then Some([])
    else
      match Convert(ps[0])
      case None => None
      case Some(j) => match ConvertList(ps[1..]) case None => None case Some(js) => Some([j] + js)
  }

  /** Fields inserted one after the other into what is already there. */
  function ConvertFields(fs: seq<Field>, acc: map<string, Json>): Option<map<string, Json>>
    decreases fs, 1
  {
    if fs == [] then Some(acc)
    else
      match Convert(fs[0].value)
      case None => None
      case Some(j) => ConvertFields(fs[1..], acc[fs[0].key := j])
  }

  /** A list converts exactly when all its elements do, element by element and in order. */
  lemma {:induction false} ListIsConvertedInOrder(ps: seq<Proto>)
    ensures ConvertList(ps).Some? <==> forall i | 0 <= i < |ps| :: Convert(ps[i]).Some?
    ensures ConvertList(ps).Some? ==>
      && |ConvertList(ps).value| == |ps|
      && forall i | 0 <= i < |ps| :: Convert(ps[i]) == Some(ConvertList(ps).value[i])
  {
    if ps != [] {
      ListIsConvertedInOrder(ps[1..]);
      assert forall i | 0 < i < |ps| :: ps[i] == ps[1..][i - 1];
      if forall i | 0 <= i < |ps| :: Convert(ps[i]).Some? {
        assert Convert(ps[0]).Some?;
        assert forall i | 0 <= i < |ps[1..]| :: ps[1..][i] == ps[i + 1];
      }
    }
  }

  /** A struct converts exactly when all its fields do. */
  lemma {:induction false} StructConvertsWithItsFields(fs: seq<Field>, acc: map<string, Json>)
    ensures ConvertFields(fs, acc).Some? <==> forall i | 0 <= i < |fs| :: Convert(fs[i].value).Some?
  {
    if fs != [] && Convert(fs[0].value).Some? {
      StructConvertsWithItsFields(fs[1..], acc[fs[0].key := Convert(fs[0].value).value]);
      assert forall i | 0 <= i < |fs[1..]| :: fs[1..][i] == fs[i + 1];
      assert forall i | 0 < i < |fs| :: fs[i] == fs[1..][i - 1];
    }
  }

  /** A struct's entries are preserved: each key holds the conversion of its last field, and no key is invented. */
  lemma {:induction false} StructKeepsItsEntries(fs: seq<Field>, acc: map<string, Json>, key: string)
    requires ConvertFields(fs, acc).Some?
    ensures var m := ConvertFields(fs, acc).value;
      match LastField(fs, key)
      case Some(field) => key in m && Convert(field.value) == Some(m[key])
      case None => (key in m <==> key in acc) && (key in acc ==> m[key] == acc[key])
  {
    if fs != [] {
      StructKeepsItsEntries(fs[1..], acc[fs[0].key := Convert(fs[0].value).value], key);
    }
  }

  /** The field a key names; with the distinct keys of a protobuf struct, the only one. */
  function LastField(fs: seq<Field>, key: string): (field: Option<Field>)
    ensures field.Some? ==> field.value in fs && field.value.key == key
    ensures field.None? ==> forall f | f in fs :: f.key != key
  {
    if fs == [] then None
    else
      var later := LastField(fs[1..], key);
      if later.Some? then later else if fs[0].key == key then Some(fs[0]) else None
  }

  // ---------------------------------------------------------------- what the conversion means

  /** A number without a JSON form occurs somewhere in the value. */
  ghost predicate HasNotFinite(p: Proto)
    decreases p
  {
    match p
    case NumberValue(number) => number == NotFinite
    case ListValue(values) => exists i :: 0 <= i < |values| && HasNotFinite(values[i])
    case StructValue(fields) => exists i :: 0 <= i < |fields| && HasNotFinite(fields[i].value)
    case _ => false
  }

  /**
   The JSON value is the protobuf value, part by part: scalars are equal, arrays have
   the same elements in order, and an object has the keys of the struct, each with the
   value of the field it names.
   */
  ghost predicate Represents(p: Proto, j: Json)
    decreases p
  {
    match p
    case Unset => j == JsonNull
    case NullValue => j == JsonNull
    case NumberValue(Finite(number)) => j == JsonNumber(number)
    case NumberValue(NotFinite) => false
    case StringValue(text) => j == JsonString(text)
    case BoolValue(flag) => j == JsonBool(flag)
    case ListValue(values) =>
      && j.JsonArray? && |j.values| == |values|
      && forall i | 0 <= i < |values| :: Represents(values[i], j.values[i])
    case StructValue(fields) =>
      && j.JsonObject?
      && (forall key :: key in j.fields <==> exists i :: 0 <= i < |fields| && fields[i].key == key)
      && (forall i | 0 <= i < |fields| :: !HasNotFinite(fields[i].value))
      && (forall i | IsLast(fields, i) :: Represents(fields[i].value, j.fields[fields[i].key]))
  }

  /** No later field has the same key; in a protobuf struct, whose keys are distinct, this is every field. */
  predicate IsLast(fields: seq<Field>, i: int) {
    0 <= i < |fields| && forall k | i < k < |fields| :: fields[k].key != fields[i].key
  }

  lemma {:induction false} LastFieldIsLast(fields: seq<Field>, key: string) returns (i: int)
    ensures match LastField(fields, key)
            case None => forall k | 0 <= k < |fields| :: fields[k].key != key
            case Some(field) => IsLast(fields, i) && fields[i] == field && field.key == key
  {
    i := 0;
    if fields != [] {
      var later := LastFieldIsLast(fields[1..], key);
      assert forall k | 0 < k < |fields| :: fields[k] == fields[1..][k - 1];
      i := if LastField(fields[1..], key).Some? then later + 1 else 0;
    }
  }

  /** The conversion succeeds exactly on values without such a number. */
  lemma {:induction false} ConvertsWhenFinite(p: Proto)
    ensures Convert(p).None? <==> HasNotFinite(p)
    decreases p
  {
    match p {
      case ListValue(values) =>
        ListIsConvertedInOrder(values);
        forall i | 0 <= i < |values|
          ensures Convert(values[i]).None? <==> HasNotFinite(values[i])
        {
          ConvertsWhenFinite(values[i]);
        }
      case StructValue(fields) =>
        StructConvertsWithItsFields(fields, map[]);
        forall i | 0 <= i < |fields|
          ensures Convert(fields[i].value).None? <==> HasNotFinite(fields[i].value)
        {
          ConvertsWhenFinite(fields[i].value);
        }
      case _ =>
    }
  }

  /** What the conversion returns represents the value. */
  lemma {:induction false} ConversionRepresents(p: Proto)
    requires Convert(p).Some?
    ensures Represents(p, Convert(p).value)
    decreases p
  {
    match p {
      case ListValue(values) =>
        ListIsConvertedInOrder(values);
        forall i | 0 <= i < |values|
          ensures Represents(values[i], ConvertList(values).value[i])
        {
          ConversionRepresents(values[i]);
        }
      case StructValue(fields) =>
        var m := ConvertFields(fields, map[]).value;
        ConvertsWhenFinite(p);
        forall key
          ensures key in m <==> exists i :: 0 <= i < |fields| && fields[i].key == key
        {
          StructKeepsItsEntries(fields, map[], key);
        }
        forall i | IsLast(fields, i)
          ensures fields[i].key in m && Represents(fields[i].value, m[fields[i].key])
        {
          StructKeepsItsEntries(fields, map[], fields[i].key);
          var k := LastFieldIsLast(fields, fields[i].key);
          ConversionRepresents(fields[i].value);
        }
      case _ =>
    }
  }

  /** A value is represented by at most one JSON value. */
  lemma {:induction false} RepresentationIsUnique(p: Proto, a: Json, b: Json)
    requires Represents(p, a) && Represents(p, b)
    ensures a == b
    decreases p
  {
    match p {
      case ListValue(values) =>
        forall i | 0 <= i < |values|
          ensures a.values[i] == b.values[i]
        {
          RepresentationIsUnique(values[i], a.values[i], b.values[i]);
        }
      case StructValue(fields) =>
        forall key
          ensures key in a.fields <==> key in b.fields
          ensures key in a.fields ==> a.fields[key] == b.fields[key]
        {
          if key in a.fields {
            var i := LastFieldIsLast(fields, key);
            RepresentationIsUnique(fields[i].value, a.fields[key], b.fields[key]);
          }
        }
        assert a.fields == b.fields;
      case _ =>
    }
  }

  lemma {:induction false} RepresentedIsFinite(p: Proto, j: Json)
    requires Represents(p, j)
    ensures !HasNotFinite(p)
    decreases p
  {
    if p.ListValue? {
      forall i | 0 <= i < |p.values|
        ensures !HasNotFinite(p.values[i])
      {
        RepresentedIsFinite(p.values[i], j.values[i]);
      }
    }
  }

  /**
   The conversion is exact: it returns the one JSON value that represents the protobuf
   value, and fails only where there is none, on a number that is not finite.
   */
  lemma ConversionIsExact(p: Proto, j: Json)
    ensures Convert(p) == Some(j) <==> Represents(p, j)
    ensures Convert(p).None? <==> HasNotFinite(p)
  {
    ConvertsWhenFinite(p);
    if Convert(p).Some? {
      ConversionRepresents(p);
      if Represents(p, j) { RepresentationIsUnique(p, j, Convert(p).value); }
    } else if Represents(p, j) {
      RepresentedIsFinite(p, j);
    }
  }

  // ---------------------------------------------------------------- JSON in protobuf, and back

  /** The usual protobuf form of a JSON value; an object's fields come in any order. */
  ghost function Embed(j: Json): Proto
    decreases j, 0
  {
    match j
    case JsonNull => NullValue
    case JsonNumber(number) => NumberValue(Finite(number))
    case JsonString(text) => StringValue(text)
    case JsonBool(flag) => BoolValue(flag)
    case JsonArray(values) => ListValue(seq(|values|, i requires 0 <= i < |values| => Embed(values[i])))
    case JsonObject(fields) => StructValue(EmbedFields(fields, fields.Keys, j))
  }

  ghost function Pick(keys: set<string>): (key: string)
    requires keys != {}
    ensures key in keys
  {
    var key :| key in keys;
    key
  }

  ghost function EmbedFields(fields: map<string, Json>, keys: set<string>, whole: Json): (fs: seq<Field>)
    requires whole == JsonObject(fields) && keys <= fields.Keys
    decreases whole, 0, |keys|
  {
    if keys == {} then []
    else
      var key := Pick(keys);
      [Field(key, Embed(fields[key]))] + EmbedFields(fields, keys - {key}, whole)
  }

  lemma {:induction false} EmbeddedFields(fields: map<string, Json>, keys: set<string>, whole: Json)
    requires whole == JsonObject(fields) && keys <= fields.Keys
    ensures forall f | f in EmbedFields(fields, keys, whole) :: f.key in keys && f.value == Embed(fields[f.key])
    ensures forall key | key in keys :: Field(key, Embed(fields[key])) in EmbedFields(fields, keys, whole)
    decreases |keys|
  {
    if keys != {} {
      var key := Pick(keys);
      EmbeddedFields(fields, keys - {key}, whole);
      var fs, rest := EmbedFields(fields, keys, whole), EmbedFields(fields, keys - {key}, whole);
      assert fs == [Field(key, Embed(fields[key]))] + rest;
    }
  }

  /** Every JSON value, objects and nesting included, comes back from its protobuf form. */
  lemma {:induction false} EmbeddingRoundTrip(j: Json)
    ensures Convert(Embed(j)) == Some(j)
    decreases j
  {
    match j {
      case JsonArray(values) =>
        forall i | 0 <= i < |values|
          ensures Convert(Embed(values[i])) == Some(values[i])
        {
          EmbeddingRoundTrip(values[i]);
        }
        ListIsConvertedInOrder(Embed(j).values);
        assert ConvertList(Embed(j).values).value == values;
      case JsonObject(fields) =>
        var fs := EmbedFields(fields, fields.Keys, j);
        EmbeddedFields(fields, fields.Keys, j);
        forall key | key in fields
          ensures Convert(Embed(fields[key])) == Some(fields[key])
        {
          EmbeddingRoundTrip(fields[key]);
        }
        StructConvertsWithItsFields(fs, map[]);
        var m := ConvertFields(fs, map[]).value;
        forall key
          ensures key in m <==> key in fields
          ensures key in fields ==> m[key] == fields[key]
        {
          StructKeepsItsEntries(fs, map[], key);
        }
        assert m == fields;
      case _ =>
    }
  }

  lemma EmbeddedComesBack(value: Proto)
    ensures forall j :: value == Embed(j) ==> Convert(value) == Some(j)
  {
    forall j | value == Embed(j)
      ensures Convert(value) == Some(j)
    {
      EmbeddingRoundTrip(j);
    }
  }

  // ---------------------------------------------------------------- sizes

  function Size(p: Proto): (n: nat)
    ensures n >= 1
    decreases p, 0
  {
    match p
    case ListValue(values) => 1 + ListSize(values)
    case StructValue(fields) => 1 + FieldsSize(fields)
    case _ => 1
  }

  function ListSize(ps: seq<Proto>): nat
    decreases ps, 1
  {
    if ps == [] then 0 else Size(ps[0]) + ListSize(ps[1..])
  }

  function FieldsSize(fs: seq<Field>): nat
    decreases fs, 1
  {
    if fs == [] then 0 else Size(fs[0].value) + FieldsSize(fs[1..])
  }

  function Max(a: nat, b: nat): nat {
    if a < b then b else a
  }

  /** How deeply the value nests; a scalar and an empty container are one level deep. */
  function Depth(p: Proto): (n: nat)
    ensures n >= 1
    decreases p, 0
  {
    match p
    case ListValue(values) => 1 + ListDepth(values)
    case StructValue(fields) => 1 + FieldsDepth(fields)
    case _ => 1
  }

  function ListDepth(ps: seq<Proto>): nat
    decreases ps, 1
  {
    if ps == [] then 0 else Max(Depth(ps[0]), ListDepth(ps[1..]))
  }

  function FieldsDepth(fs: seq<Field>): nat
    decreases fs, 1
  {
    if fs == [] then 0 else Max(Depth(fs[0].value), FieldsDepth(fs[1..]))
  }

  // ---------------------------------------------------------------- the machine

  /** A suspended iterator with what it has built, or a value on its way in or out. */
  datatype Frame =
    | ListFrame(rest: seq<Proto>, elements: seq<Json>)
    | MapFrame(remaining: seq<Field>, scope: string, entries: map<string, Json>)
    | ValueFrame(json: Json)
    | ProtoFrame(proto: Proto)

  predicate Suspended(frame: Frame) {
    frame.ListFrame? || frame.MapFrame?
  }

  function Weight(frame: Frame): nat {
    match frame
    case ListFrame(rest, _) => 2 + 3 * ListSize(rest)
    case MapFrame(remaining, _, _) => 2 + 3 * FieldsSize(remaining)
    case ValueFrame(_) => 2
    case ProtoFrame(proto) => 3 * Size(proto)
  }

  function StackWeight(stack: seq<Frame>): nat {
    if stack == [] then 0 else Weight(stack[|stack| - 1]) + StackWeight(stack[..|stack| - 1])
  }

  /** Levels this frame still needs, itself included. */
  function Reach(frame: Frame): (n: nat)
    ensures n >= 1
  {
    match frame
    case ListFrame(rest, _) => 1 + Max(1, ListDepth(rest))
    case MapFrame(remaining, _, _) => 1 + Max(1, FieldsDepth(remaining))
    case ValueFrame(_) => 1
    case ProtoFrame(proto) => Depth(proto)
  }

  predicate WithinDepth(stack: seq<Frame>, depth: nat) {
    forall i | 0 <= i < |stack| :: i + Reach(stack[i]) <= depth
  }

  /** The whole result, once `value` is handed to the topmost suspended frame. */
  function Plug(stack: seq<Frame>, value: Option<Json>): Option<Json>
    requires forall i | 0 <= i < |stack| :: Suspended(stack[i])
  {
    if stack == [] || value.None? then value
    else
      var below := stack[..|stack| - 1];
      assert Suspended(stack[|stack| - 1]);
      match stack[|stack| - 1]
      case ListFrame(rest, elements) =>
        (match ConvertList(rest)
         case None => None
         case Some(js) => Plug(below, Some(JsonArray(elements + [value.value] + js))))
      case MapFrame(remaining, scope, entries) =>
        (match ConvertFields(remaining, entries[scope := value.value])
         case None => None
         case Some(m) => Plug(below, Some(JsonObject(m))))
  }

  /** What the machine will return from here. */
  function Outcome(stack: seq<Frame>, param: Option<Json>): Option<Json>
    requires Ready(stack, param)
  {
    if param.Some? then Plug(stack, param)
    else
      var below := stack[..|stack| - 1];
      match stack[|stack| - 1]
      case ValueFrame(json) => Plug(below, Some(json))
      case ProtoFrame(proto) => Plug(below, Convert(proto))
  }

  /** The register is full and only suspended frames wait for it, or it is empty and a value is on top. */
  predicate Ready(stack: seq<Frame>, param: Option<Json>) {
    if param.Some? then forall i | 0 <= i < |stack| :: Suspended(stack[i])
    else
      && stack != []
      && !Suspended(stack[|stack| - 1])
      && forall i | 0 <= i < |stack| - 1 :: Suspended(stack[i])
  }

  predicate AllSuspended(stack: seq<Frame>) {
    forall i | 0 <= i < |stack| :: Suspended(stack[i])
  }

  /** What the loop keeps: the answer still to come, and room below the nesting depth. */
  predicate OnTrack(stack: seq<Frame>, param: Option<Json>, value: Proto) {
    && Ready(stack, param)
    && Outcome(stack, param) == Convert(value)
    && WithinDepth(stack, Depth(value))
  }

  /** What lies below the top, and the room the top takes. */
  lemma Uncovered(below: seq<Frame>, top: Frame, param: Option<Json>, value: Proto)
    requires OnTrack(below + [top], param, value)
    ensures AllSuspended(below) && WithinDepth(below, Depth(value))
    ensures |below| + Reach(top) <= Depth(value)
    ensures (below + [top])[..|below|] == below
  {
    var stack := below + [top];
    assert stack[..|below|] == below && stack[|below|] == top;
    assert forall i | 0 <= i < |below| :: below[i] == stack[i];
  }

  lemma PushedWeight(below: seq<Frame>, frame: Frame)
    ensures StackWeight(below + [frame]) == Weight(frame) + StackWeight(below)
  {
    assert (below + [frame])[..|below|] == below;
  }

  /** The top is replaced by a finished value that means the same to the frames below. */
  lemma Completes(below: seq<Frame>, top: Frame, param: Option<Json>, json: Json, value: Proto)
    requires OnTrack(below + [top], param, value)
    requires Outcome(below + [top], param) == PlugIf(below, Some(json))
    ensures OnTrack(below + [ValueFrame(json)], None, value)
  {
    Uncovered(below, top, param, value);
    ValueResult(below, json);
    assert Outcome(below + [ValueFrame(json)], None) == Convert(value);
    FitsOnTop(below, ValueFrame(json), Depth(value));
  }

  lemma FitsOnTop(below: seq<Frame>, top: Frame, depth: nat)
    requires WithinDepth(below, depth) && |below| + Reach(top) <= depth
    ensures WithinDepth(below + [top], depth)
  {
  }

  /** The top is replaced by a suspended container under its next child. */
  lemma Suspends(below: seq<Frame>, top: Frame, param: Option<Json>, next: Frame, child: Proto, value: Proto)
    requires OnTrack(below + [top], param, value)
    requires Suspended(next) && Reach(next) <= Reach(top) && 1 + Depth(child) <= Reach(top)
    requires Outcome(below + [top], param) == PlugIf(below + [next], Convert(child))
    ensures OnTrack(below + [next] + [ProtoFrame(child)], None, value)
  {
    Uncovered(below, top, param, value);
    var waiting := below + [next];
    assert (waiting + [ProtoFrame(child)])[..|waiting|] == waiting;
  }

  /** Plug, made total so that it can be named before its frames are known to be suspended. */
  function PlugIf(stack: seq<Frame>, value: Option<Json>): Option<Json> {
    if AllSuspended(stack) then Plug(stack, value) else None
  }

  /** Suspending a list before its next element and resuming it loses nothing. */
  lemma ResumeList(below: seq<Frame>, rest: seq<Proto>, acc: seq<Json>)
    requires AllSuspended(below) && rest != []
    ensures PlugIf(below + [ListFrame(rest[1..], acc)], Convert(rest[0]))
         == match ConvertList(rest) case None => None case Some(js) => PlugIf(below, Some(JsonArray(acc + js)))
  {
    var stack := below + [ListFrame(rest[1..], acc)];
    assert stack[..|below|] == below;
    if Convert(rest[0]).Some? && ConvertList(rest[1..]).Some? {
      var j, js := Convert(rest[0]).value, ConvertList(rest[1..]).value;
      assert acc + [j] + js == acc + ([j] + js);
    }
  }

  lemma ResumeMap(below: seq<Frame>, remaining: seq<Field>, acc: map<string, Json>)
    requires AllSuspended(below) && remaining != []
    ensures PlugIf(below + [MapFrame(remaining[1..], remaining[0].key, acc)], Convert(remaining[0].value))
         == match ConvertFields(remaining, acc) case None => None case Some(m) => PlugIf(below, Some(JsonObject(m)))
  {
    var stack := below + [MapFrame(remaining[1..], remaining[0].key, acc)];
    assert stack[..|below|] == below;
  }

  /** A list frame on top waits for its value, then for the rest of its elements. */
  lemma ListResult(below: seq<Frame>, rest: seq<Proto>, elements: seq<Json>, json: Json)
    requires AllSuspended(below)
    ensures Outcome(below + [ListFrame(rest, elements)], Some(json))
         == match ConvertList(rest)
            case None => None
            case Some(js) => PlugIf(below, Some(JsonArray(elements + [json] + js)))
  {
    assert (below + [ListFrame(rest, elements)])[..|below|] == below;
  }

  lemma MapResult(below: seq<Frame>, remaining: seq<Field>, scope: string, entries: map<string, Json>, json: Json)
    requires AllSuspended(below)
    ensures Outcome(below + [MapFrame(remaining, scope, entries)], Some(json))
         == match ConvertFields(remaining, entries[scope := json])
            case None => None
            case Some(m) => PlugIf(below, Some(JsonObject(m)))
  {
    assert (below + [MapFrame(remaining, scope, entries)])[..|below|] == below;
  }

  lemma ListSizes(values: seq<Proto>, acc: seq<Json>)
    requires values != []
    ensures Reach(ListFrame(values[1..], acc)) <= 1 + ListDepth(values)
    ensures Depth(values[0]) <= ListDepth(values)
    ensures 3 * Size(values[0]) + Weight(ListFrame(values[1..], acc)) == 2 + 3 * ListSize(values)
  {
  }

  lemma FieldSizes(fields: seq<Field>, scope: string, acc: map<string, Json>)
    requires fields != []
    ensures Reach(MapFrame(fields[1..], scope, acc)) <= 1 + FieldsDepth(fields)
    ensures Depth(fields[0].value) <= FieldsDepth(fields)
    ensures 3 * Size(fields[0].value) + Weight(MapFrame(fields[1..], scope, acc)) == 2 + 3 * FieldsSize(fields)
  {
  }

  /** The register takes a finished value. */
  lemma TakenValue(below: seq<Frame>, json: Json, value: Proto)
    requires OnTrack(below + [ValueFrame(json)], None, value)
    ensures OnTrack(below, Some(json), value)
  {
    Uncovered(below, ValueFrame(json), None, value);
    ValueResult(below, json);
    assert Outcome(below, Some(json)) == Plug(below, Some(json));
  }

  lemma ValueResult(below: seq<Frame>, json: Json)
    requires AllSuspended(below)
    ensures Outcome(below + [ValueFrame(json)], None) == Plug(below, Some(json))
  {
    assert (below + [ValueFrame(json)])[..|below|] == below;
  }

  lemma Height(stack: seq<Frame>, depth: nat)
    requires WithinDepth(stack, depth)
    ensures |stack| <= depth
  {
    if stack != [] { assert |stack| - 1 + Reach(stack[|stack| - 1]) <= depth; }
  }

  /** The next child of a list goes on top of the list. */
  method PushElement(below: seq<Frame>, rest: seq<Proto>, acc: seq<Json>, ghost top: Frame, ghost param: Option<Json>,
                     ghost value: Proto) returns (stack: seq<Frame>)
    requires rest != [] && OnTrack(below + [top], param, value) && 1 + ListDepth(rest) <= Reach(top)
    requires Outcome(below + [top], param)
          == match ConvertList(rest) case None => None case Some(js) => PlugIf(below, Some(JsonArray(acc + js)))
    ensures OnTrack(stack, None, value)
    ensures StackWeight(stack) == 2 + 3 * ListSize(rest) + StackWeight(below)
  {
    ghost var next := ListFrame(rest[1..], acc);
    Uncovered(below, top, param, value);
    ResumeList(below, rest, acc);
    ListSizes(rest, acc);
    Suspends(below, top, param, next, rest[0], value);
    PushedWeight(below, next);
    PushedWeight(below + [next], ProtoFrame(rest[0]));
    return below + [ListFrame(rest[1..], acc)] + [ProtoFrame(rest[0])];
  }

  /** The next child of a struct goes on top of the struct. */
  method PushField(below: seq<Frame>, remaining: seq<Field>, acc: map<string, Json>, ghost top: Frame,
                   ghost param: Option<Json>, ghost value: Proto) returns (stack: seq<Frame>)
    requires remaining != [] && OnTrack(below + [top], param, value) && 1 + FieldsDepth(remaining) <= Reach(top)
    requires Outcome(below + [top], param)
          == match ConvertFields(remaining, acc) case None => None case Some(m) => PlugIf(below, Some(JsonObject(m)))
    ensures OnTrack(stack, None, value)
    ensures StackWeight(stack) == 2 + 3 * FieldsSize(remaining) + StackWeight(below)
  {
    ghost var next := MapFrame(remaining[1..], remaining[0].key, acc);
    Uncovered(below, top, param, value);
    ResumeMap(below, remaining, acc);
    FieldSizes(remaining, remaining[0].key, acc);
    Suspends(below, top, param, next, remaining[0].value, value);
    PushedWeight(below, next);
    PushedWeight(below + [next], ProtoFrame(remaining[0].value));
    return below + [MapFrame(remaining[1..], remaining[0].key, acc)] + [ProtoFrame(remaining[0].value)];
  }

  /** A value that needs no suspension goes back on the stack finished. */
  method PushValue(below: seq<Frame>, json: Json, ghost top: Frame, ghost param: Option<Json>, ghost value: Proto)
    returns (stack: seq<Frame>)
    requires OnTrack(below + [top], param, value)
    requires Outcome(below + [top], param) == PlugIf(below, Some(json))
    ensures OnTrack(stack, None, value)
    ensures StackWeight(stack) == 2 + StackWeight(below)
  {
    Completes(below, top, param, json, value);
    PushedWeight(below, ValueFrame(json));
    return below + [ValueFrame(json)];
  }

  /** A protobuf value on top means what its conversion means to the frames below. */
  lemma ProtoResult(below: seq<Frame>, proto: Proto)
    requires AllSuspended(below)
    ensures Outcome(below + [ProtoFrame(proto)], None) == PlugIf(below, Convert(proto))
    ensures Convert(proto).None? ==> Outcome(below + [ProtoFrame(proto)], None).None?
  {
    assert (below + [ProtoFrame(proto)])[..|below|] == below;
  }

  /** One protobuf value taken off the stack; None is a number without a JSON form. */
  method StepProto(below: seq<Frame>, proto: Proto, ghost value: Proto) returns (r: Option<seq<Frame>>)
    requires OnTrack(below + [ProtoFrame(proto)], None, value)
    ensures r.None? ==> Convert(value).None?
    ensures r.Some? ==> OnTrack(r.value, None, value) && StackWeight(r.value) < 3 * Size(proto) + StackWeight(below)
  {
    ghost var top := ProtoFrame(proto);
    Uncovered(below, top, None, value);
    ProtoResult(below, proto);
    var json;
    match proto {
      case Unset => json := JsonNull;
      case NullValue => json := JsonNull;
      case NumberValue(number) =>
        if number.NotFinite? { return None; }
        json := JsonNumber(number.value);
      case StringValue(text) => json := JsonString(text);
      case BoolValue(flag) => json := JsonBool(flag);
      case StructValue(fields) =>
        if fields != [] {
          var frames := PushField(below, fields, map[], top, None, value);
          return Some(frames);
        }
        json := JsonObject(map[]);
        assert ConvertFields(fields, map[]) == Some(map[]);
      case ListValue(values) =>
        if values != [] {
          assert ConvertList(values).Some? ==> [] + ConvertList(values).value == ConvertList(values).value;
          var frames := PushElement(below, values, [], top, None, value);
          return Some(frames);
        }
        json := JsonArray([]);
        assert ConvertList(values) == Some([]);
    }
    var stack := PushValue(below, json, top, None, value);
    return Some(stack);
  }

  /** A suspended container taken off the stack with the register's value. */
  method StepSuspended(below: seq<Frame>, frame: Frame, json: Json, ghost value: Proto) returns (stack: seq<Frame>)
    requires Suspended(frame)
    requires OnTrack(below + [frame], Some(json), value)
    ensures OnTrack(stack, None, value)
    ensures StackWeight(stack) <= Weight(frame) + StackWeight(below)
  {
    Uncovered(below, frame, Some(json), value);
    match frame {
      case MapFrame(remaining, scope, entries) =>
        var acc := entries[scope := json];
        MapResult(below, remaining, scope, entries, json);
        if remaining != [] {
          stack := PushField(below, remaining, acc, frame, Some(json), value);
        } else {
          assert ConvertFields(remaining, acc) == Some(acc);
          stack := PushValue(below, JsonObject(acc), frame, Some(json), value);
        }
      case ListFrame(rest, elements) =>
        var acc := elements + [json];
        ListResult(below, rest, elements, json);
        if rest != [] {
          stack := PushElement(below, rest, acc, frame, Some(json), value);
        } else {
          assert ConvertList(rest) == Some([]) && acc + [] == acc;
          stack := PushValue(below, JsonArray(acc), frame, Some(json), value);
        }
    }
  }

  /**
   The conversion loop.  None is the one panic that can happen, a number without a
   JSON form; the register is never read empty.  `peak` is the tallest the stack got.
   */
  method ParseValue(value: Proto) returns (r: Option<Json>, ghost peak: nat)
    ensures r == Convert(value)
    ensures r.None? <==> HasNotFinite(value)
    ensures r.Some? ==> Represents(value, r.value)
    ensures forall j :: value == Embed(j) ==> r == Some(j)
    ensures peak <= Depth(value)
  {
    var stack := [ProtoFrame(value)];
    var param: Option<Json> := None;
    assert stack[..0] == [];
    peak := 1;

    while stack != []
      invariant OnTrack(stack, param, value)
      invariant peak <= Depth(value)
      decreases StackWeight(stack) + if param.Some? then 1 else 0
    {
      Height(stack, Depth(value));
      peak := Max(peak, |stack|);
      var elem := stack[|stack| - 1];
      var below := stack[..|stack| - 1];
      assert stack == below + [elem];
      PushedWeight(below, elem);
      match elem {
        case ValueFrame(json) =>
          TakenValue(below, json, value);
          stack, param := below, Some(json);
        case ProtoFrame(proto) =>
          var pushed := StepProto(below, proto, value);
          if pushed.None? {
            ConvertsWhenFinite(value);
            EmbeddedComesBack(value);
            return None, peak;
          }
          stack := pushed.value;
        case _ =>
          stack := StepSuspended(below, elem, param.value, value);
          param := None;
      }
    }
    r := param;
    if r.Some? { ConversionIsExact(value, r.value); }
    EmbeddedComesBack(value);
  }
}
