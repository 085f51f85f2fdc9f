/**
 Carrying a trace context in event metadata: the `traceparent` and `tracestate`
 fields of W3C Trace Context (sections 3.2 and 3.3), merged into JSON metadata whose
 other keys belong to somebody else.
 */
module TraceMetadata {
  import opened Wrappers

  datatype Value = Text(text: string) | Structured(json: string)

  type Fields = map<string, Value>

  /** The bytes of an event's metadata, as far as they can be decoded. */
  datatype Metadata = Absent | Empty | ObjectBytes(fields: Fields) | OtherBytes(raw: seq<bv8>)

  const TRACE_PARENT := "traceparent"
  const TRACE_STATE := "tracestate"

  function LowerChar(c: char): char {
    if 'A' <= c <= 'Z' then c - 'A' + 'a' else c
  }

  function Lower(s: string): string {
    seq(|s|, i requires 0 <= i < |s| => LowerChar(s[i]))
  }

  predicate SameName(a: string, b: string) {
    Lower(a) == Lower(b)
  }

  /** Two names are the same exactly when they agree up to the case of ASCII letters. */
  lemma NamesIgnoreAsciiCase(a: string, b: string)
    ensures SameName(a, b)
       <==> |a| == |b| && forall i | 0 <= i < |a| ::
              || a[i] == b[i]
              || ('A' <= a[i] <= 'Z' && b[i] as int == a[i] as int + 32)
              || ('A' <= b[i] <= 'Z' && a[i] as int == b[i] as int + 32)
  {
    if SameName(a, b) {
      forall i | 0 <= i < |a|
        ensures LowerChar(a[i]) == LowerChar(b[i])
      {
        assert Lower(a)[i] == Lower(b)[i];
      }
    }
  }

  predicate IsTraceField(key: string) {
    SameName(key, TRACE_PARENT) || SameName(key, TRACE_STATE)
  }

  /** Setting a field drops every spelling of it and stores the one given; other names are ignored. */
  function SetField(fields: Fields, key: string, value: string): Fields {
    if !IsTraceField(key) then fields
    else (map k | k in fields && !SameName(k, key) :: fields[k])[key := Text(value)]
  }

  /** One field is set: the key holds the text, under no other spelling, and every other name is as it was. */
  ghost predicate Replaces(before: Fields, after: Fields, key: string, value: string) {
    if !IsTraceField(key) then after == before
    else
      && key in after && after[key] == Text(value)
      && (forall k | k in after && SameName(k, key) :: k == key)
      && (forall k | k in before && !SameName(k, key) :: k in after && after[k] == before[k])
      && (forall k | k in after && !SameName(k, key) :: k in before)
  }

  lemma ReplacesIsSetField(before: Fields, after: Fields, key: string, value: string)
    requires Replaces(before, after, key, value)
    ensures after == SetField(before, key, value)
  {
    if IsTraceField(key) {
      forall k
        ensures k in after <==> k in SetField(before, key, value)
        ensures k in after ==> after[k] == SetField(before, key, value)[k]
      {
      }
    }
  }

  /** What the propagator may leave in an empty carrier: trace fields, one spelling each. */
  predicate Propagated(injected: map<string, string>) {
    && (forall k | k in injected :: IsTraceField(k))
    && (forall k, l | k in injected && l in injected && SameName(k, l) :: k == l)
  }

  /** A write of a trace field that no later write of the same field, in any spelling, replaces. */
  predicate LastWrite(writes: seq<(string, string)>, i: int) {
    && 0 <= i < |writes|
    && (SameName(writes[i].0, "traceparent") || SameName(writes[i].0, "tracestate"))
    && forall j | i < j < |writes| :: !SameName(writes[j].0, writes[i].0)
  }

  /** The propagator's writes leave exactly the last write of each trace field, as it was spelled. */
  ghost predicate Leaves(writes: seq<(string, string)>, injected: map<string, string>) {
    && (forall k :: k in injected <==> exists i :: LastWrite(writes, i) && writes[i].0 == k)
    && (forall i | LastWrite(writes, i) :: writes[i].0 in injected && injected[writes[i].0] == writes[i].1)
  }

  /** The key is some spelling of an injected field. */
  predicate Named(injected: map<string, string>, key: string) {
    exists f | f in injected :: SameName(key, f)
  }

  /** The merge, without any order: the old keys no injected field names, and the injected fields. */
  function Merged(fields: Fields, injected: map<string, string>): Fields {
    (map k | k in fields && !Named(injected, k) :: fields[k])
    + (map f | f in injected :: Text(injected[f]))
  }

  function InjectContext(metadata: Metadata, valid: bool, injected: map<string, string>): Metadata {
    if !valid || injected == map[] then metadata
    else
      match metadata
      case Absent => ObjectBytes(Merged(map[], injected))
      case Empty => ObjectBytes(Merged(map[], injected))
      case ObjectBytes(fields) => ObjectBytes(Merged(fields, injected))
      case OtherBytes(_) => metadata
  }

  /** A lookup ignores case and passes over values that are not text. */
  ghost predicate Finds(fields: Fields, key: string, found: Option<string>) {
    match found
    case None => forall k | k in fields && SameName(k, key) :: !fields[k].Text?
    case Some(text) => exists k :: k in fields && SameName(k, key) && fields[k] == Text(text)
  }

  class EventMetadataCarrier {
    var fields: Fields

    constructor (fields: Fields)
      ensures this.fields == fields
    {
      this.fields := fields;
    }

    method Set(key: string, value: string)
      modifies this
      ensures Replaces(old(fields), fields, key, value)
    {
      if !IsTraceField(key) { return; }
      fields := map k | k in fields && !SameName(k, key) :: fields[k];
      fields := fields[key := Text(value)];
    }

    /** The first text stored under some spelling of the key, in whatever order entries come. */
    method Get(key: string) returns (found: Option<string>)
      ensures Finds(fields, key, found)
    {
      var left := fields.Keys;
      while left != {}
        invariant left <= fields.Keys
        invariant forall k | k in fields.Keys - left && SameName(k, key) :: !fields[k].Text?
        decreases left
      {
        var k :| k in left;
        left := left - {k};
        if SameName(k, key) && fields[k].Text? { return Some(fields[k].text); }
      }
      return None;
    }
  }

  /** The propagator's own writes, made through `Set` on an empty carrier. */
  method Propagate(writes: seq<(string, string)>) returns (injected: map<string, string>)
    ensures Leaves(writes, injected)
    ensures Propagated(injected)
  {
    var carrier := new EventMetadataCarrier(map[]);
    for i := 0 to |writes|
      invariant forall k | k in carrier.fields :: carrier.fields[k].Text?
      invariant Leaves(writes[..i], Texts(carrier.fields))
    {
      var (key, value) := writes[i];
      ghost var before := carrier.fields;
      carrier.Set(key, value);
      ReplacesIsSetField(before, carrier.fields, key, value);
      WriteLeaves(writes[..i], before, key, value);
      assert writes[..i + 1] == writes[..i] + [(key, value)];
    }
    injected := map k | k in carrier.fields :: carrier.fields[k].text;
    assert writes[..|writes|] == writes;
    LeftIsPropagated(writes, injected);
  }

  function Texts(fields: Fields): map<string, string>
    requires forall k | k in fields :: fields[k].Text?
  {
    map k | k in fields :: fields[k].text
  }

  lemma LastWriteOfMore(writes: seq<(string, string)>, next: (string, string), i: int)
    ensures LastWrite(writes + [next], i)
       <==> if i == |writes| then IsTraceField(next.0)
            else LastWrite(writes, i) && !SameName(next.0, writes[i].0)
  {
    var more := writes + [next];
    if 0 <= i < |writes| {
      assert forall j | i < j < |writes| :: more[j] == writes[j];
      assert more[|writes|] == next;
    }
  }

  lemma WriteLeaves(writes: seq<(string, string)>, fields: Fields, key: string, value: string)
    requires forall k | k in fields :: fields[k].Text?
    requires Leaves(writes, Texts(fields))
    ensures forall k | k in SetField(fields, key, value) :: SetField(fields, key, value)[k].Text?
    ensures Leaves(writes + [(key, value)], Texts(SetField(fields, key, value)))
  {
    var more, after := writes + [(key, value)], Texts(SetField(fields, key, value));
    assert more[|writes|] == (key, value);
    forall i | LastWrite(more, i)
      ensures more[i].0 in after && after[more[i].0] == more[i].1
    {
      LastWriteOfMore(writes, (key, value), i);
      if i < |writes| { assert more[i] == writes[i] && more[i].0 in Texts(fields); }
    }
    forall k | k in after
      ensures exists i :: LastWrite(more, i) && more[i].0 == k
    {
      if IsTraceField(key) && k == key {
        LastWriteOfMore(writes, (key, value), |writes|);
      } else {
        assert k in Texts(fields);
        var i :| LastWrite(writes, i) && writes[i].0 == k;
        LastWriteOfMore(writes, (key, value), i);
        assert more[i] == writes[i];
      }
    }
  }

  lemma LeftIsPropagated(writes: seq<(string, string)>, injected: map<string, string>)
    requires Leaves(writes, injected)
    ensures Propagated(injected)
  {
    forall k, l | k in injected && l in injected && SameName(k, l)
      ensures k == l
    {
      var i :| LastWrite(writes, i) && writes[i].0 == k;
      var j :| LastWrite(writes, j) && writes[j].0 == l;
    }
  }

  /** What is left is fixed by the writes. */
  lemma LeftIsUnique(writes: seq<(string, string)>, a: map<string, string>, b: map<string, string>)
    requires Leaves(writes, a) && Leaves(writes, b)
    ensures a == b
  {
    forall k
      ensures k in a <==> k in b
      ensures k in a ==> a[k] == b[k]
    {
      if k in a {
        var i :| LastWrite(writes, i) && writes[i].0 == k;
      }
      if k in b {
        var i :| LastWrite(writes, i) && writes[i].0 == k;
      }
    }
  }

  /** The merge loop, over the injected fields in any order. */
  method MergeFields(metadata: Fields, injected: map<string, string>) returns (merged: Fields)
    requires Propagated(injected)
    ensures merged == Merged(metadata, injected)
  {
    var carrier := new EventMetadataCarrier(metadata);
    var left := injected.Keys;
    assert metadata == Merged(metadata, injected - left);
    while left != {}
      invariant left <= injected.Keys
      invariant carrier.fields == Merged(metadata, injected - left)
      decreases left
    {
      var key :| key in left;
      NextField(metadata, injected, left, key);
      ghost var before := carrier.fields;
      carrier.Set(key, injected[key]);
      ReplacesIsSetField(before, carrier.fields, key, injected[key]);
      left := left - {key};
    }
    assert injected - {} == injected;
    merged := carrier.fields;
  }

  lemma NextField(fields: Fields, injected: map<string, string>, left: set<string>, key: string)
    requires Propagated(injected) && left <= injected.Keys && key in left
    ensures SetField(Merged(fields, injected - left), key, injected[key]) == Merged(fields, injected - (left - {key}))
  {
    var done := injected - left;
    assert done[key := injected[key]] == injected - (left - {key});
    SetExtendsMerge(fields, done, key, injected[key]);
  }

  lemma SetExtendsMerge(fields: Fields, done: map<string, string>, key: string, value: string)
    requires IsTraceField(key) && forall k | k in done :: !SameName(k, key)
    ensures SetField(Merged(fields, done), key, value) == Merged(fields, done[key := value])
  {
    var left, right := SetField(Merged(fields, done), key, value), Merged(fields, done[key := value]);
    assert forall k :: k in left <==> k in right;
  }

  /**
   Every injected field is there as text, under its own spelling and no other; every key
   that is no spelling of one is there with its old value; and there is nothing else.
   */
  ghost predicate Carries(before: Fields, injected: map<string, string>, after: Fields) {
    && (forall f | f in injected :: f in after && after[f] == Text(injected[f]))
    && (forall k, f | k in after && f in injected && SameName(k, f) :: k == f)
    && (forall k | k in before && !(exists f | f in injected :: SameName(k, f)) :: k in after && after[k] == before[k])
    && (forall k | k in after && k !in injected :: k in before && after[k] == before[k])
  }

  lemma MergeCarries(fields: Fields, injected: map<string, string>)
    requires Propagated(injected)
    ensures Carries(fields, injected, Merged(fields, injected))
  {
    forall k
      ensures k in Merged(fields, injected) ==> k in injected || k in fields
    {
      MergeIsExact(fields, injected, k);
    }
  }

  /** The event's metadata after injection. */
  method InjectEventContext(metadata: Metadata, valid: bool, writes: seq<(string, string)>)
    returns (r: Metadata, injected: map<string, string>)
    ensures Propagated(injected)
    ensures if valid then Leaves(writes, injected) else injected == map[]
    ensures r == InjectContext(metadata, valid, injected)
    ensures !valid || injected == map[] || metadata.OtherBytes? ==> r == metadata
    ensures valid && injected != map[] && !metadata.OtherBytes? ==>
      r.ObjectBytes? && Carries(if metadata.ObjectBytes? then metadata.fields else map[], injected, r.fields)
  {
    injected := map[];
    if !valid { return metadata, injected; }
    injected := Propagate(writes);
    if injected == map[] { return metadata, injected; }
    var fields: Fields := map[];
    match metadata {
      case Absent =>
      case Empty =>
      case ObjectBytes(decoded) => fields := decoded;
      case OtherBytes(_) => return metadata, injected;
    }
    var merged := MergeFields(fields, injected);
    MergeCarries(fields, injected);
    return ObjectBytes(merged), injected;
  }

  // ---------------------------------------------------------------- what injection guarantees

  /**
   Injection keeps every key that is not a spelling of an injected field, and leaves
   exactly one spelling, the injected one with the injected value, of each that is.
   */
  lemma MergeIsExact(fields: Fields, injected: map<string, string>, key: string)
    requires Propagated(injected)
    ensures !Named(injected, key) ==>
      && (key in Merged(fields, injected) <==> key in fields)
      && (key in fields ==> Merged(fields, injected)[key] == fields[key])
    ensures Named(injected, key) ==> (key in Merged(fields, injected) <==> key in injected)
    ensures key in injected ==>
      && Merged(fields, injected)[key] == Text(injected[key])
      && forall k | k in Merged(fields, injected) && SameName(k, key) :: k == key
  {
  }

  /** Whatever spelling an extractor looks a field up under, it reads the injected value. */
  lemma InjectedIsLookedUp(fields: Fields, injected: map<string, string>, field: string, spelling: string,
                           found: Option<string>)
    requires Propagated(injected) && field in injected && SameName(spelling, field)
    requires Finds(Merged(fields, injected), spelling, found)
    ensures found == Some(injected[field])
  {
    MergeIsExact(fields, injected, field);
    var merged := Merged(fields, injected);
    assert field in merged && SameName(field, spelling) && merged[field].Text?;
    var k :| k in merged && SameName(k, spelling) && merged[k] == Text(found.value);
    assert SameName(k, field);
  }

  /**
   Injecting the context of the same writes twice is injecting it once, whatever either
   injection left in its carrier, and metadata that is not an object is untouched.
   */
  lemma InjectionIsIdempotent(metadata: Metadata, valid: bool, writes: seq<(string, string)>,
                              injected: map<string, string>, again: map<string, string>)
    requires valid ==> Leaves(writes, injected) && Leaves(writes, again)
    ensures InjectContext(InjectContext(metadata, valid, injected), valid, again)
         == InjectContext(metadata, valid, injected)
    ensures metadata.OtherBytes? ==> InjectContext(metadata, valid, injected) == metadata
  {
    if valid { LeftIsUnique(writes, injected, again); }
    MergesOnce(if metadata.ObjectBytes? then metadata.fields else map[], injected);
  }

  lemma MergesOnce(fields: Fields, injected: map<string, string>)
    ensures Merged(Merged(fields, injected), injected) == Merged(fields, injected)
  {
  }

  /**
   Injection is confined to the two W3C headers: it writes at most one key for each, and
   every key that is not `traceparent` or `tracestate` in some case is as it was.
   */
  lemma TraceFieldsAreTheW3CHeaders(fields: Fields, injected: map<string, string>, key: string)
    requires Propagated(injected)
    ensures |injected| <= 2
    ensures Lower(key) != "traceparent" && Lower(key) != "tracestate" ==>
      && key !in injected
      && (key in Merged(fields, injected) <==> key in fields)
      && (key in fields ==> Merged(fields, injected)[key] == fields[key])
  {
    assert Lower(TRACE_PARENT) == "traceparent";
    assert Lower(TRACE_STATE) == "tracestate";
    if Named(injected, key) {
      var f :| f in injected && SameName(key, f);
      assert IsTraceField(f);
    }
    AtMostTwo(injected);
  }

  lemma AtMostTwo(injected: map<string, string>)
    requires Propagated(injected)
    ensures |injected| <= 2
  {
    var parents := set k | k in injected && SameName(k, TRACE_PARENT);
    var states := set k | k in injected && SameName(k, TRACE_STATE);
    AtMostOne(injected, parents);
    AtMostOne(injected, states);
    assert injected.Keys == parents + states;
  }

  lemma AtMostOne(injected: map<string, string>, spellings: set<string>)
    requires Propagated(injected) && forall k, l | k in spellings && l in spellings :: k in injected && SameName(k, l)
    ensures |spellings| <= 1
  {
    if spellings != {} {
      var k :| k in spellings;
      assert spellings == {k};
    }
  }

  lemma NamedFollows(earlier: map<string, string>, later: map<string, string>, key: string)
    requires forall f | f in earlier :: Named(later, f)
    ensures Named(earlier, key) ==> Named(later, key)
  {
    if Named(earlier, key) {
      var f :| f in earlier && SameName(key, f);
      var g :| g in later && SameName(f, g);
      assert SameName(key, g);
    }
  }

  lemma MergedAt(fields: Fields, injected: map<string, string>, key: string)
    ensures key in injected ==> Named(injected, key)
    ensures key in Merged(fields, injected) <==> key in injected || (key in fields && !Named(injected, key))
    ensures key in Merged(fields, injected) ==>
      Merged(fields, injected)[key] == if key in injected then Text(injected[key]) else fields[key]
  {
    assert SameName(key, key);
  }

  lemma LaterContextAt(fields: Fields, earlier: map<string, string>, later: map<string, string>, key: string)
    requires forall f | f in earlier :: Named(later, f)
    ensures key in Merged(Merged(fields, earlier), later) <==> key in Merged(fields, later)
    ensures key in Merged(fields, later) ==>
      Merged(Merged(fields, earlier), later)[key] == Merged(fields, later)[key]
  {
    MergedAt(Merged(fields, earlier), later, key);
    MergedAt(fields, earlier, key);
    MergedAt(fields, later, key);
    NamedFollows(earlier, later, key);
  }

  /** A later context replaces an earlier one that set the same fields. */
  lemma LaterContextWins(fields: Fields, earlier: map<string, string>, later: map<string, string>)
    requires forall f | f in earlier :: Named(later, f)
    ensures Merged(Merged(fields, earlier), later) == Merged(fields, later)
  {
    var twice, direct := Merged(Merged(fields, earlier), later), Merged(fields, later);
    forall key
      ensures key in twice <==> key in direct
      ensures key in direct ==> twice[key] == direct[key]
    {
      LaterContextAt(fields, earlier, later, key);
    }
    assert twice == direct;
  }
}
