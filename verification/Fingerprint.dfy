/** Event grouping (src/fingerprint.rs), stated on the text that is hashed: what
    it reads, and when two events hash the same text. */
module Fingerprint {
  import opened Text

  datatype Json =
    | Null
    | Bool(flag: bool)
    | Number(digits: string)
    | Str(text: string)
    | Arr(items: seq<Json>)
    | Obj(fields: map<string, Json>)

  const TEXT_KEYS: seq<string> := ["exception_type", "error_type", "type", "message"]
  const NESTED_KEYS: seq<string> :=
    ["frames", "stack_frames", "stacktrace", "exceptions", "exception", "error"]

  // ---- What is collected -------------------------------------------------

  function TextParts(fields: map<string, Json>, keys: seq<string>): seq<string> {
    if keys == [] then []
    else TextParts(fields, keys[..|keys| - 1]) + TextPart(fields, keys[|keys| - 1])
  }

  function TextPart(fields: map<string, Json>, key: string): seq<string> {
    if key in fields && fields[key].Str? then [key + ":" + fields[key].text] else []
  }

  /** The first of two spellings that is present decides, string or not. */
  function Either(fields: map<string, Json>, key: string, other: string): Option<string> {
    var chosen := if key in fields then Some(fields[key]) else if other in fields then Some(fields[other]) else None;
    if chosen.Some? && chosen.value.Str? then Some(chosen.value.text) else None
  }

  function FrameParts(fields: map<string, Json>): seq<string> {
    match (Either(fields, "filename", "file"), Either(fields, "function", "function_name"))
    case (Some(file), Some(function_)) => ["frame:" + file + ":" + function_]
    case _ => []
  }

  function Collected(value: Json): seq<string>
    decreases value, 2
  {
    match value
    case Obj(fields) => TextParts(fields, TEXT_KEYS) + NestedParts(value, NESTED_KEYS) + FrameParts(fields)
    case Arr(items) => ItemParts(value, |items|)
    case _ => []
  }

  function NestedParts(value: Json, keys: seq<string>): seq<string>
    requires value.Obj?
    decreases value, 1, |keys|
  {
    if keys == [] then []
    else
      var key := keys[|keys| - 1];
      NestedParts(value, keys[..|keys| - 1])
      + (if key in value.fields then Collected(value.fields[key]) else [])
  }

  function ItemParts(value: Json, n: nat): seq<string>
    requires value.Arr? && n <= |value.items|
    decreases value, 1, n
  {
    if n == 0 then [] else ItemParts(value, n - 1) + Collected(value.items[n - 1])
  }

  lemma TextPartsStep(fields: map<string, Json>, keys: seq<string>, k: nat)
    requires k < |keys|
    ensures TextParts(fields, keys[..k + 1]) == TextParts(fields, keys[..k]) + TextPart(fields, keys[k])
  {
    assert keys[..k + 1][..k] == keys[..k];
  }

  lemma NestedPartsStep(value: Json, keys: seq<string>, k: nat)
    requires value.Obj? && k < |keys|
    ensures NestedParts(value, keys[..k + 1]) ==
            NestedParts(value, keys[..k]) + (if keys[k] in value.fields then Collected(value.fields[keys[k]]) else [])
  {
    assert keys[..k + 1][..k] == keys[..k];
  }

  /** The recursive walk, pushing onto one list. */
  method Collect(value: Json, before: seq<string>) returns (out: seq<string>)
    ensures out == before + Collected(value)
    decreases value, 1
  {
    out := before;
    match value
    case Obj(fields) =>
      out := CollectTexts(fields, TEXT_KEYS, out);
      out := CollectNested(value, NESTED_KEYS, out);
      var file := Either(fields, "filename", "file");
      var function_ := Either(fields, "function", "function_name");
      if file.Some? && function_.Some? {
        out := out + ["frame:" + file.value + ":" + function_.value];
      }
    case Arr(items) =>
      for k := 0 to |items|
        invariant out == before + ItemParts(value, k)
      {
        out := Collect(items[k], out);
      }
    case _ =>
  }

  /** The walk's loop over the keys whose texts are read. */
  method CollectTexts(fields: map<string, Json>, keys: seq<string>, before: seq<string>) returns (out: seq<string>)
    ensures out == before + TextParts(fields, keys)
  {
    out := before;
    for k := 0 to |keys|
      invariant out == before + TextParts(fields, keys[..k])
    {
      TextPartsStep(fields, keys, k);
      if keys[k] in fields && fields[keys[k]].Str? {
        out := out + [keys[k] + ":" + fields[keys[k]].text];
      }
    }
    assert keys[..|keys|] == keys;
  }

  /** The walk's loop over the keys it descends into. */
  method CollectNested(value: Json, keys: seq<string>, before: seq<string>) returns (out: seq<string>)
    requires value.Obj?
    ensures out == before + NestedParts(value, keys)
    decreases value, 0
  {
    out := before;
    for k := 0 to |keys|
      invariant out == before + NestedParts(value, keys[..k])
    {
      NestedPartsStep(value, keys, k);
      if keys[k] in value.fields {
        out := Collect(value.fields[keys[k]], out);
      }
    }
    assert keys[..|keys|] == keys;
  }

  // ---- The text that is hashed -------------------------------------------

  /** A scalar as JSON text; `quote` writes a string literal. */
  function Scalar(value: Json, quote: string -> string): string
    requires !value.Arr? && !value.Obj?
  {
    match value
    case Null => "null"
    case Bool(flag) => if flag then "true" else "false"
    case Number(digits) => digits
    case Str(text) => quote(text)
  }

  /** The fallback text of a value. */
  function Canonical(value: Json, quote: string -> string): string
    decreases value, 2
  {
    match value
    case Obj(fields) => Join(CanonicalEntries(value, SortedOf(fields.Keys), quote), "|")
    case Arr(items) => Join(CanonicalItems(value, |items|, quote), ",")
    case _ => Scalar(value, quote)
  }

  function CanonicalEntries(value: Json, keys: seq<string>, quote: string -> string): seq<string>
    requires value.Obj?
    decreases value, 1, |keys|
  {
    if keys == [] then []
    else
      (if keys[0] in value.fields then [keys[0] + ":" + Canonical(value.fields[keys[0]], quote)] else [])
      + CanonicalEntries(value, keys[1..], quote)
  }

  function CanonicalItems(value: Json, n: nat, quote: string -> string): seq<string>
    requires value.Arr? && n <= |value.items|
    decreases value, 1, n
  {
    if n == 0 then [] else CanonicalItems(value, n - 1, quote) + [Canonical(value.items[n - 1], quote)]
  }

  function Strings(items: seq<Json>): seq<string> {
    if items == [] then []
    else (if items[0].Str? then [items[0].text] else []) + Strings(items[1..])
  }

  predicate Explicit(event: Json) {
    && event.Obj? && "fingerprint" in event.fields
    && event.fields["fingerprint"].Arr? && event.fields["fingerprint"].items != []
  }

  function ExplicitText(components: seq<string>): string {
    "explicit\n" + Join(components, "\n")
  }

  /** The preimage of `event_fingerprint`'s hash. */
  function Preimage(event: Json, quote: string -> string): string {
    if Explicit(event) then ExplicitText(Strings(event.fields["fingerprint"].items))
    else
      var parts := Collected(event);
      Join(if parts == [] then [Canonical(event, quote)] else parts, "\n")
  }

  // ---- Accepted events ---------------------------------------------------

  /** An event's fields, in the order of its declaration. A body may be an object
      or an array of fields by position, whose tail may be missing. */
  const FIELDS: seq<string> :=
    ["version", "event_id", "timestamp", "message", "error", "severity", "release", "environment", "platform",
     "stack_frames", "breadcrumbs", "tags", "contexts", "user", "fingerprint"]

  function Field(event: Json, i: nat): Option<Json>
    requires i < |FIELDS|
  {
    match event
    case Obj(fields) => if FIELDS[i] in fields then Some(fields[FIELDS[i]]) else None
    case Arr(items) => if i < |items| then Some(items[i]) else None
    case _ => None
  }

  ghost predicate IsText(field: Option<Json>) {
    field.Some? && field.value.Str? && Trim(field.value.text) != []
  }

  ghost predicate IsComponents(value: Json) {
    value.Arr? && 1 <= |value.items| <= 10 && forall c | c in value.items :: c.Str? && Trim(c.text) != []
  }

  predicate HasComponents(event: Json) {
    Field(event, 14).Some? && Field(event, 14).value.Arr?
  }

  /** The part of deserialisation and validation that grouping relies on: the
      shape, the version where its place is fixed, the required texts, and
      explicit components that are texts when there are any. */
  ghost predicate Validated(event: Json) {
    && (event.Obj? || (event.Arr? && |event.items| <= |FIELDS| && Field(event, 0) == Some(Number("1"))))
    && IsText(Field(event, 1)) && IsText(Field(event, 2)) && IsText(Field(event, 3))
    && (Field(event, 14).Some? ==> Field(event, 14).value.Null? || IsComponents(Field(event, 14).value))
  }

  // ---- Projection --------------------------------------------------------

  predicate FrameKey(fields: map<string, Json>, key: string) {
    || key == "filename" || key == "function"
    || (key == "file" && "filename" !in fields)
    || (key == "function_name" && "function" !in fields)
  }

  /** The value with everything the walk never reads deleted, at every depth. */
  function Pruned(value: Json): Json {
    match value
    case Obj(fields) =>
      Obj(map key | key in fields
            && ((key in TEXT_KEYS && fields[key].Str?) || key in NESTED_KEYS || FrameKey(fields, key)) ::
            if key in NESTED_KEYS then Pruned(fields[key])
            else if fields[key].Str? then fields[key] else Null)
    case Arr(items) => Arr(seq(|items|, i requires 0 <= i < |items| => Pruned(items[i])))
    case _ => Null
  }

  lemma {:induction false} TextPartsPruned(value: Json, keys: seq<string>)
    requires value.Obj? && forall k | k in keys :: k in TEXT_KEYS
    ensures TextParts(Pruned(value).fields, keys) == TextParts(value.fields, keys)
  {
    if keys != [] {
      TextPartsPruned(value, keys[..|keys| - 1]);
      assert keys[|keys| - 1] in TEXT_KEYS;
      assert forall k | k in TEXT_KEYS :: k !in NESTED_KEYS;
    }
  }

  lemma FramePartsPruned(value: Json)
    requires value.Obj?
    ensures FrameParts(Pruned(value).fields) == FrameParts(value.fields)
  {
    assert forall k | k in ["filename", "file", "function", "function_name"] :: k !in NESTED_KEYS && k !in TEXT_KEYS;
    assert "filename" in ["filename"] && "file" in ["file"];
    var f, p := value.fields, Pruned(value).fields;
    assert "filename" in p <==> "filename" in f;
    assert "function" in p <==> "function" in f;
    assert "filename" !in f ==> ("file" in p <==> "file" in f);
    assert "function" !in f ==> ("function_name" in p <==> "function_name" in f);
  }

  lemma {:induction false} CollectedPruned(value: Json)
    ensures Collected(Pruned(value)) == Collected(value)
    decreases value, 2
  {
    match value
    case Obj(fields) =>
      TextPartsPruned(value, TEXT_KEYS);
      NestedPartsPruned(value, NESTED_KEYS);
      FramePartsPruned(value);
    case Arr(items) =>
      ItemPartsPruned(value, |items|);
    case _ =>
  }

  lemma {:induction false} NestedPartsPruned(value: Json, keys: seq<string>)
    requires value.Obj? && forall k | k in keys :: k in NESTED_KEYS
    ensures NestedParts(Pruned(value), keys) == NestedParts(value, keys)
    decreases value, 1, |keys|
  {
    if keys != [] {
      var key := keys[|keys| - 1];
      assert key in NESTED_KEYS;
      NestedPartsPruned(value, keys[..|keys| - 1]);
      if key in value.fields { CollectedPruned(value.fields[key]); }
    }
  }

  lemma {:induction false} ItemPartsPruned(value: Json, n: nat)
    requires value.Arr? && n <= |value.items|
    ensures ItemParts(Pruned(value), n) == ItemParts(value, n)
    decreases value, 1, n
  {
    if n > 0 {
      var p, last := Pruned(value), value.items[n - 1];
      assert p.Arr? && |p.items| == |value.items| && p.items[n - 1] == Pruned(last);
      ItemPartsPruned(value, n - 1);
      CollectedPruned(last);
      assert ItemParts(p, n) == ItemParts(p, n - 1) + Collected(p.items[n - 1]);
    }
  }

  /** All of an event that its group depends on. */
  function Projection(event: Json): Json {
    if Explicit(event) then Obj(map["fingerprint" := event.fields["fingerprint"]]) else Pruned(event)
  }

  lemma MessageCollected(event: Json)
    requires Validated(event) && event.Obj?
    ensures Collected(event) != []
  {
    assert TEXT_KEYS[3] == "message" == FIELDS[3];
    assert TextPart(event.fields, "message") != [];
  }

  /** The canonical text of the whole body is hashed exactly when the body is an
      array in which nothing is collected. */
  lemma FallbackExactly(event: Json, quote: string -> string)
    requires Validated(event)
    ensures !Explicit(event) && Collected(event) == [] <==> event.Arr? && Collected(event) == []
    ensures !Explicit(event) ==>
              Preimage(event, quote) ==
              if Collected(event) == [] then Canonical(event, quote) else Join(Collected(event), "\n")
  {
    if event.Obj? { MessageCollected(event); }
  }

  /** Grouping sees only the projection: whatever agrees with the event on it
      hashes the same text. */
  ghost predicate Decided(event: Json, quote: string -> string) {
    forall other | Validated(other) && Projection(other) == Projection(event) ::
      Preimage(other, quote) == Preimage(event, quote)
  }

  lemma PrunedImplicit(value: Json)
    ensures Pruned(value).Obj? ==> "fingerprint" !in Pruned(value).fields
  {
    assert "fingerprint" !in TEXT_KEYS && "fingerprint" !in NESTED_KEYS;
  }

  lemma ProjectionTellsExplicit(a: Json, b: Json)
    requires Projection(a) == Projection(b)
    ensures Explicit(a) <==> Explicit(b)
    ensures Explicit(a) ==> a.fields["fingerprint"] == b.fields["fingerprint"]
    ensures !Explicit(a) ==> Pruned(a) == Pruned(b)
  {
    PrunedImplicit(a);
    PrunedImplicit(b);
    if Explicit(a) { assert "fingerprint" in Projection(a).fields; }
    if Explicit(b) { assert "fingerprint" in Projection(b).fields; }
  }

  lemma SameProjectionSameGroup(a: Json, b: Json, quote: string -> string)
    requires Validated(a) && Validated(b)
    ensures Projection(a) == Projection(b) && (a.Obj? || Collected(a) != []) ==>
              Preimage(a, quote) == Preimage(b, quote)
  {
    if Projection(a) == Projection(b) {
      ProjectionTellsExplicit(a, b);
      if !Explicit(a) {
        CollectedPruned(a);
        CollectedPruned(b);
        if a.Obj? { MessageCollected(a); }
      }
    }
  }

  /** The event under another id. */
  function Renamed(event: Json): Json
    requires event.Arr? && |event.items| > 1
  {
    Arr(event.items[1 := Str(if event.items[1] == Str("a") then "b" else "a")])
  }

  lemma RenamedValidated(event: Json)
    requires Validated(event) && event.Arr?
    ensures Validated(Renamed(event))
  {
    var other := Renamed(event);
    TrimFixed("a");
    TrimFixed("b");
    assert IsText(Field(other, 1));
    assert Field(other, 0) == Field(event, 0) && Field(other, 2) == Field(event, 2);
    assert Field(other, 3) == Field(event, 3) && Field(other, 14) == Field(event, 14);
  }

  lemma RenamedSameProjection(event: Json)
    requires Validated(event) && event.Arr?
    ensures Projection(Renamed(event)) == Projection(event)
    ensures Collected(Renamed(event)) == Collected(event)
  {
    var other := Renamed(event);
    assert Pruned(other).items == Pruned(event).items;
    CollectedPruned(event);
    CollectedPruned(other);
  }

  lemma {:induction false} CanonicalItemsAt(value: Json, n: nat, quote: string -> string)
    requires value.Arr? && n <= |value.items|
    ensures var texts := CanonicalItems(value, n, quote);
            |texts| == n && forall k | 0 <= k < n :: texts[k] == Canonical(value.items[k], quote)
  {
    if n > 0 { CanonicalItemsAt(value, n - 1, quote); }
  }

  lemma MiddleCancels(head: string, x: string, y: string, tail: string)
    requires head + (x + tail) == head + (y + tail)
    ensures x == y
  {
    assert (head + (x + tail))[|head|..] == x + tail && (head + (y + tail))[|head|..] == y + tail;
    assert (x + tail)[..|x|] == x && (y + tail)[..|y|] == y;
  }

  lemma JoinAroundSecond(a: seq<string>, sep: string)
    requires |a| > 2
    ensures Join(a, sep) == a[0] + sep + (a[1] + (sep + Join(a[2..], sep)))
  {
    assert a[1..][1..] == a[2..];
  }

  /** The second text of a joined list can be read off when the rest is known. */
  lemma SecondOfJoin(a: seq<string>, b: seq<string>, sep: string)
    requires |a| == |b| > 2 && a[0] == b[0] && a[2..] == b[2..] && Join(a, sep) == Join(b, sep)
    ensures a[1] == b[1]
  {
    JoinAroundSecond(a, sep);
    JoinAroundSecond(b, sep);
    MiddleCancels(a[0] + sep, a[1], b[1], sep + Join(a[2..], sep));
  }

  lemma RenamedOtherText(event: Json, quote: string -> string)
    requires Validated(event) && event.Arr? && forall s, t :: quote(s) == quote(t) ==> s == t
    ensures Canonical(Renamed(event), quote) != Canonical(event, quote)
  {
    var other, n := Renamed(event), |event.items|;
    CanonicalItemsAt(event, n, quote);
    CanonicalItemsAt(other, n, quote);
    var a, b := CanonicalItems(event, n, quote), CanonicalItems(other, n, quote);
    assert a[2..] == b[2..];
    if Join(a, ",") == Join(b, ",") { SecondOfJoin(a, b, ","); }
  }

  /** Exactly the events that are objects, or in which something is collected,
      are grouped by their projection; the other arrays by everything they carry,
      the event id included. String literals tell strings apart. */
  lemma GroupingReadsOnlyProjection(event: Json, quote: string -> string)
    requires Validated(event) && forall s, t :: quote(s) == quote(t) ==> s == t
    ensures Decided(event, quote) <==> event.Obj? || Collected(event) != []
  {
    if event.Obj? || Collected(event) != [] {
      forall other | Validated(other) && Projection(other) == Projection(event)
        ensures Preimage(other, quote) == Preimage(event, quote)
      {
        SameProjectionSameGroup(event, other, quote);
      }
    } else {
      RenamedValidated(event);
      RenamedSameProjection(event);
      RenamedOtherText(event, quote);
      FallbackExactly(event, quote);
      FallbackExactly(Renamed(event), quote);
    }
  }

  // ---- Explicit components -----------------------------------------------

  lemma JoinStartsWith(parts: seq<string>, sep: string)
    requires parts != []
    ensures parts[0] <= Join(parts, sep)
  {
  }

  /** How a collected part can begin. */
  predicate BeginsPart(part: string) {
    || "exception_type:" <= part || "error_type:" <= part || "type:" <= part || "message:" <= part || "frame:" <= part
  }

  lemma {:induction false} TextPartsBegin(fields: map<string, Json>, keys: seq<string>)
    requires forall k | k in keys :: k in TEXT_KEYS
    ensures forall part | part in TextParts(fields, keys) :: BeginsPart(part)
  {
    if keys != [] {
      TextPartsBegin(fields, keys[..|keys| - 1]);
      var key := keys[|keys| - 1];
      assert key in TEXT_KEYS;
      assert forall part | part in TextPart(fields, key) :: key + ":" <= part;
    }
  }

  lemma {:induction false} CollectedBegin(value: Json)
    ensures forall part | part in Collected(value) :: BeginsPart(part)
    decreases value, 2
  {
    match value
    case Obj(fields) =>
      TextPartsBegin(fields, TEXT_KEYS);
      NestedBegin(value, NESTED_KEYS);
    case Arr(items) => ItemsBegin(value, |items|);
    case _ =>
  }

  lemma {:induction false} NestedBegin(value: Json, keys: seq<string>)
    requires value.Obj?
    ensures forall part | part in NestedParts(value, keys) :: BeginsPart(part)
    decreases value, 1, |keys|
  {
    if keys != [] {
      NestedBegin(value, keys[..|keys| - 1]);
      var key := keys[|keys| - 1];
      if key in value.fields { CollectedBegin(value.fields[key]); }
    }
  }

  lemma {:induction false} ItemsBegin(value: Json, n: nat)
    requires value.Arr? && n <= |value.items|
    ensures forall part | part in ItemParts(value, n) :: BeginsPart(part)
    decreases value, 1, n
  {
    if n > 0 {
      ItemsBegin(value, n - 1);
      CollectedBegin(value.items[n - 1]);
    }
  }

  /** A text the server chooses to hash never looks explicit. */
  lemma ChosenText(event: Json, quote: string -> string)
    requires Validated(event) && !Explicit(event)
    ensures !("explicit" <= Preimage(event, quote))
  {
    var text := Preimage(event, quote);
    FallbackExactly(event, quote);
    if Collected(event) != [] {
      var first := Collected(event)[0];
      CollectedBegin(event);
      JoinStartsWith(Collected(event), "\n");
      assert first in Collected(event) && BeginsPart(first);
      assert text[0] == first[0] && text[1] == first[1] && text[2] == first[2];
    } else {
      var texts := CanonicalItems(event, |event.items|, quote);
      CanonicalItemsAt(event, |event.items|, quote);
      JoinStartsWith(texts, ",");
      assert texts[0] == "1" && text[0] == '1';
    }
  }

  /** The components of an object never land in a group without components. */
  lemma ExplicitApart(a: Json, b: Json, quote: string -> string)
    requires Validated(a) && Validated(b) && a.Obj? && HasComponents(a) && !HasComponents(b)
    ensures Preimage(a, quote) != Preimage(b, quote)
  {
    ComponentsExplicit(a, quote);
    ChosenText(b, quote);
  }

  lemma ComponentsExplicit(event: Json, quote: string -> string)
    requires Validated(event) && HasComponents(event)
    ensures Explicit(event) <==> event.Obj?
    ensures event.Obj? ==> "explicit" <= Preimage(event, quote)
  {
    assert FIELDS[14] == "fingerprint";
  }

  function WithoutComponents(event: Json): Json {
    match event
    case Obj(fields) => Obj(fields - {"fingerprint"})
    case Arr(items) => Arr(if |items| > 14 then items[..14] else items)
    case _ => event
  }

  lemma WithoutComponentsValidated(event: Json)
    requires Validated(event)
    ensures Validated(WithoutComponents(event)) && !HasComponents(WithoutComponents(event))
  {
    assert FIELDS[14] == "fingerprint" && forall i | 1 <= i < 4 :: FIELDS[i] != "fingerprint";
  }

  lemma {:induction false} ItemPartsPrefix(value: Json, shorter: Json, n: nat)
    requires value.Arr? && shorter.Arr? && n <= |shorter.items| && shorter.items <= value.items
    ensures ItemParts(shorter, n) == ItemParts(value, n)
  {
    if n > 0 { ItemPartsPrefix(value, shorter, n - 1); }
  }

  lemma {:induction false} StringsCollectNothing(value: Json, n: nat)
    requires value.Arr? && n <= |value.items| && forall c | c in value.items :: c.Str?
    ensures ItemParts(value, n) == []
  {
    if n > 0 { StringsCollectNothing(value, n - 1); }
  }

  lemma PositionalCollectsTheSame(event: Json)
    requires Validated(event) && event.Arr? && HasComponents(event)
    ensures |event.items| == 15 && Collected(WithoutComponents(event)) == Collected(event)
  {
    var components, shorter := event.items[14], WithoutComponents(event);
    assert shorter.items == event.items[..14] <= event.items;
    ItemPartsPrefix(event, shorter, 14);
    StringsCollectNothing(components, |components.items|);
    assert Collected(components) == [];
    assert ItemParts(event, 15) == ItemParts(event, 14) + Collected(components);
  }

  lemma PositionalLonger(event: Json, quote: string -> string)
    requires Validated(event) && event.Arr? && |event.items| == 15
    ensures |Canonical(event, quote)| > |Canonical(WithoutComponents(event), quote)|
  {
    var shorter := WithoutComponents(event);
    CanonicalItemsAt(event, 15, quote);
    CanonicalItemsAt(shorter, 14, quote);
    var all, init := CanonicalItems(event, 15, quote), CanonicalItems(shorter, 14, quote);
    assert all == init + [all[14]];
    JoinSnocLength(init, all[14], ",");
  }

  lemma {:induction false} JoinSnocLength(parts: seq<string>, last: string, sep: string)
    requires parts != []
    ensures |Join(parts + [last], sep)| == |Join(parts, sep)| + |sep| + |last|
  {
    assert (parts + [last])[1..] == parts[1..] + [last];
    if |parts| > 1 { JoinSnocLength(parts[1..], last, sep); }
  }

  /** The components moved to the end of the field before them. */
  function Folded(event: Json): Json
    requires event.Arr? && |event.items| == 15 && event.items[14].Arr?
  {
    Arr(event.items[..13] + [Behind(event.items[13], event.items[14].items)])
  }

  lemma FoldedValidated(event: Json)
    requires Validated(event) && event.Arr? && HasComponents(event)
    ensures |event.items| == 15 && Validated(Folded(event)) && !HasComponents(Folded(event))
  {
    var other := Folded(event);
    assert forall i | 0 <= i < 13 :: other.items[i] == event.items[i];
    assert |other.items| == 14 && Field(other, 0) == Field(event, 0) && Field(other, 1) == Field(event, 1);
    assert Field(other, 2) == Field(event, 2) && Field(other, 3) == Field(event, 3) && Field(other, 14).None?;
  }

  lemma {:induction false} NothingCollected(value: Json, n: nat)
    requires value.Arr? && n <= |value.items|
    ensures ItemParts(value, n) == [] <==> forall k | 0 <= k < n :: Collected(value.items[k]) == []
  {
    if n > 0 { NothingCollected(value, n - 1); }
  }

  /** One field with the components behind it. */
  function Behind(field: Json, components: seq<Json>): Json {
    Arr([field] + components)
  }

  lemma BehindCollectsNothing(field: Json, components: seq<Json>)
    requires Collected(field) == [] && forall c | c in components :: c.Str?
    ensures Collected(Behind(field, components)) == []
  {
    var last := Behind(field, components);
    assert forall k | 0 <= k < |components| :: last.items[k + 1] == components[k] && components[k].Str?;
    NothingCollected(last, |last.items|);
  }

  lemma FoldedCollectsNothing(event: Json)
    requires Validated(event) && event.Arr? && HasComponents(event) && Collected(event) == []
    ensures |event.items| == 15 && Collected(Folded(event)) == []
  {
    var other := Folded(event);
    NothingCollected(event, 15);
    BehindCollectsNothing(event.items[13], event.items[14].items);
    assert forall k | 0 <= k < 13 :: other.items[k] == event.items[k];
    assert |other.items| == 14 && other.items[13] == Behind(event.items[13], event.items[14].items);
    NothingCollected(other, 14);
  }

  lemma {:induction false} JoinConcat(a: seq<string>, b: seq<string>, sep: string)
    requires a != [] && b != []
    ensures Join(a + b, sep) == Join(a, sep) + sep + Join(b, sep)
  {
    assert (a + b)[1..] == a[1..] + b && (a + b)[0] == a[0];
    if |a| > 1 { JoinConcat(a[1..], b, sep); } else { assert a[1..] + b == b; }
  }

  /** Texts joined twice are joined once. */
  lemma JoinFlattens(a: seq<string>, x: string, b: seq<string>, sep: string)
    requires a != [] && b != []
    ensures Join(a + [Join([x] + b, sep)], sep) == Join(a + [x] + [Join(b, sep)], sep)
  {
    JoinConcat([x], b, sep);
    JoinConcat(a, [Join([x] + b, sep)], sep);
    JoinConcat(a + [x], [Join(b, sep)], sep);
    JoinConcat(a, [x], sep);
  }

  lemma {:induction false} BehindTexts(field: Json, components: seq<Json>, n: nat, quote: string -> string)
    requires n <= |components|
    ensures CanonicalItems(Behind(field, components), n + 1, quote)
            == [Canonical(field, quote)] + CanonicalItems(Arr(components), n, quote)
  {
    var last := Behind(field, components);
    if n == 0 {
      assert last.items[0] == field && CanonicalItems(last, 0, quote) == [];
    } else {
      BehindTexts(field, components, n - 1, quote);
      assert last.items[n] == components[n - 1];
    }
  }

  lemma {:induction false} CanonicalItemsPrefix(a: Json, b: Json, n: nat, quote: string -> string)
    requires a.Arr? && b.Arr? && n <= |a.items| && n <= |b.items| && a.items[..n] == b.items[..n]
    ensures CanonicalItems(a, n, quote) == CanonicalItems(b, n, quote)
  {
    if n > 0 {
      assert a.items[n - 1] == a.items[..n][n - 1] == b.items[n - 1];
      assert a.items[..n - 1] == a.items[..n][..n - 1] == b.items[..n - 1];
      CanonicalItemsPrefix(a, b, n - 1, quote);
    }
  }

  lemma FoldedTexts(event: Json, quote: string -> string) returns (a: seq<string>, x: string, b: seq<string>)
    requires Validated(event) && event.Arr? && HasComponents(event)
    ensures a != [] && b != [] && |event.items| == 15
    ensures CanonicalItems(event, 15, quote) == a + [x] + [Join(b, ",")]
    ensures CanonicalItems(Folded(event), 14, quote) == a + [Join([x] + b, ",")]
  {
    var other, field, components := Folded(event), event.items[13], event.items[14];
    var n := |components.items|;
    a, x, b := CanonicalItems(event, 13, quote), Canonical(field, quote), CanonicalItems(components, n, quote);
    CanonicalItemsAt(event, 13, quote);
    CanonicalItemsAt(components, n, quote);
    CanonicalItemsPrefix(event, other, 13, quote);
    BehindTexts(field, components.items, n, quote);
    assert other.items[13] == Behind(field, components.items);
    assert CanonicalItems(event, 14, quote) == a + [x];
  }

  lemma FoldedSameText(event: Json, quote: string -> string)
    requires Validated(event) && event.Arr? && HasComponents(event) && Collected(event) == []
    ensures |event.items| == 15 && Preimage(Folded(event), quote) == Preimage(event, quote)
  {
    FoldedValidated(event);
    FoldedCollectsNothing(event);
    FallbackExactly(event, quote);
    FallbackExactly(Folded(event), quote);
    var a, x, b := FoldedTexts(event, quote);
    JoinFlattens(a, x, b, ",");
  }

  /** No event without components hashes the same text. */
  ghost predicate Apart(event: Json, quote: string -> string) {
    forall other | Validated(other) && !HasComponents(other) :: Preimage(other, quote) != Preimage(event, quote)
  }

  /** Components keep an event apart from all events without them exactly when
      the body is an object. */
  lemma ApartExactly(event: Json, quote: string -> string)
    requires Validated(event) && HasComponents(event)
    ensures Apart(event, quote) <==> event.Obj?
  {
    if event.Obj? {
      forall other | Validated(other) && !HasComponents(other)
        ensures Preimage(other, quote) != Preimage(event, quote)
      {
        ExplicitApart(event, other, quote);
      }
    } else if Collected(event) != [] {
      WithoutComponentsValidated(event);
      ExplicitExactly(event, quote);
    } else {
      FoldedValidated(event);
      FoldedSameText(event, quote);
    }
  }

  /** Components are what is hashed exactly when the body is an object; giving
      them changes the hashed text exactly when the body is an object, or an
      array in which nothing is collected. */
  lemma ExplicitExactly(event: Json, quote: string -> string)
    requires Validated(event) && HasComponents(event)
    ensures Preimage(event, quote) == ExplicitText(Strings(Field(event, 14).value.items)) <==> event.Obj?
    ensures Preimage(event, quote) != Preimage(WithoutComponents(event), quote)
            <==> event.Obj? || Collected(event) == []
  {
    ComponentsExplicit(event, quote);
    WithoutComponentsValidated(event);
    if event.Obj? {
      ExplicitApart(event, WithoutComponents(event), quote);
    } else {
      ChosenText(event, quote);
      PositionalCollectsTheSame(event);
      FallbackExactly(event, quote);
      FallbackExactly(WithoutComponents(event), quote);
      PositionalLonger(event, quote);
    }
  }

  /** All lines of all components, in order. */
  function Lines(components: seq<string>): seq<string> {
    if components == [] then [] else Split(components[0], '\n') + Lines(components[1..])
  }

  lemma {:induction false} SplitOfComponents(components: seq<string>)
    requires components != []
    ensures Split(Join(components, "\n"), '\n') == Lines(components)
  {
    if |components| > 1 {
      SplitOfComponents(components[1..]);
      SplitAppend(components[0], '\n', Join(components[1..], "\n"));
    } else {
      assert Lines(components[1..]) == [];
    }
  }

  /** Components are not kept apart when they contain newlines: two explicit
      fingerprints share a group exactly when their lines agree. */
  lemma ExplicitCollision(a: seq<string>, b: seq<string>)
    requires a != [] && b != []
    ensures ExplicitText(a) == ExplicitText(b) <==> Lines(a) == Lines(b)
  {
    SplitOfComponents(a);
    SplitOfComponents(b);
    JoinSplit(Join(a, "\n"), '\n');
    JoinSplit(Join(b, "\n"), '\n');
    var p := "explicit\n";
    assert (p + Join(a, "\n"))[|p|..] == Join(a, "\n");
    assert (p + Join(b, "\n"))[|p|..] == Join(b, "\n");
  }

  lemma {:induction false} LinesOfSingleLines(components: seq<string>)
    requires forall i | 0 <= i < |components| :: '\n' !in components[i]
    ensures Lines(components) == components
  {
    if components != [] {
      SplitFree(components[0], '\n');
      LinesOfSingleLines(components[1..]);
    }
  }

  /** Different single-line component lists are different groups; the
      restriction is needed. */
  lemma ExplicitInjective(a: seq<string>, b: seq<string>)
    requires a != [] && b != []
    ensures (forall i | 0 <= i < |a| :: '\n' !in a[i]) && (forall i | 0 <= i < |b| :: '\n' !in b[i]) ==>
              (ExplicitText(a) == ExplicitText(b) <==> a == b)
    ensures ExplicitText(["a\nb"]) == ExplicitText(["a", "b"])
  {
    ExplicitCollision(a, b);
    if (forall i | 0 <= i < |a| :: '\n' !in a[i]) && (forall i | 0 <= i < |b| :: '\n' !in b[i]) {
      LinesOfSingleLines(a);
      LinesOfSingleLines(b);
    }
    assert ["a", "b"][1..] == ["b"];
    assert Join(["a", "b"], "\n") == "a" + "\n" + "b" == "a\nb";
  }

  // ---- Events the service receives ---------------------------------------

  predicate Required(id: string, time: string, message: string) {
    Trim(id) != [] && Trim(time) != [] && Trim(message) != []
  }

  function WithComponents(id: string, time: string, message: string, components: seq<Json>): Json {
    Obj(map["event_id" := Str(id), "timestamp" := Str(time), "message" := Str(message),
            "fingerprint" := Arr(components)])
  }

  lemma WithComponentsValidated(id: string, time: string, message: string, components: seq<Json>)
    requires Required(id, time, message) && IsComponents(Arr(components))
    ensures Validated(WithComponents(id, time, message, components))
    ensures forall quote :: Preimage(WithComponents(id, time, message, components), quote)
                            == ExplicitText(Strings(components))
  {
    var event := WithComponents(id, time, message, components);
    assert FIELDS[1] == "event_id" && FIELDS[2] == "timestamp" && FIELDS[3] == "message" && FIELDS[14] == "fingerprint";
    assert event.fields["event_id"] == Str(id) && event.fields["timestamp"] == Str(time);
    assert event.fields["message"] == Str(message) && event.fields["fingerprint"] == Arr(components);
  }

  lemma JoinOfTwo(x: string, y: string, sep: string)
    ensures Join([x, y], sep) == x + sep + y
  {
    assert [x, y][1..] == [y] && Join([y], sep) == y;
  }

  lemma TwoLines(x: string, y: string)
    ensures Strings([Str(x + "\n" + y)]) == [x + "\n" + y] && Strings([Str(x), Str(y)]) == [x, y]
    ensures ExplicitText([x + "\n" + y]) == ExplicitText([x, y])
    ensures Trim(x) != [] ==> Trim(x + "\n" + y) != []
  {
    assert [Str(x), Str(y)][1..] == [Str(y)] && [Str(y)][1..] == [];
    JoinOfTwo(x, y, "\n");
    TrimBlank(x);
    TrimBlank(x + "\n" + y);
    assert forall i | 0 <= i < |x| :: (x + "\n" + y)[i] == x[i];
  }

  /** Accepted events with one component of two lines and with two components are
      one group. */
  lemma NewlineCollision(id: string, time: string, message: string, x: string, y: string, quote: string -> string)
    requires Required(id, time, message) && Trim(x) != [] && Trim(y) != []
    ensures var a := WithComponents(id, time, message, [Str(x + "\n" + y)]);
            var b := WithComponents(id, time, message, [Str(x), Str(y)]);
            Validated(a) && Validated(b) && a != b && Preimage(a, quote) == Preimage(b, quote)
  {
    TwoLines(x, y);
    WithComponentsValidated(id, time, message, [Str(x + "\n" + y)]);
    WithComponentsValidated(id, time, message, [Str(x), Str(y)]);
    var a := WithComponents(id, time, message, [Str(x + "\n" + y)]);
    var b := WithComponents(id, time, message, [Str(x), Str(y)]);
    assert |a.fields["fingerprint"].items| == 1 && |b.fields["fingerprint"].items| == 2;
  }

  /** The shortest accepted array: version, id, time and message by position. */
  function Bare(id: string, time: string, message: string): Json {
    Arr([Number("1"), Str(id), Str(time), Str(message)])
  }

  lemma {:induction false} ScalarsCollectNothing(value: Json, n: nat)
    requires value.Arr? && n <= |value.items| && forall c | c in value.items :: !c.Arr? && !c.Obj?
    ensures ItemParts(value, n) == []
  {
    if n > 0 { ScalarsCollectNothing(value, n - 1); }
  }

  lemma JoinOfFour(a: string, b: string, c: string, d: string, sep: string)
    ensures Join([a, b, c, d], sep) == a + sep + (b + sep + (c + sep + d))
  {
    JoinOfTwo(c, d, sep);
    assert [b, c, d][1..] == [c, d];
    assert Join([b, c, d], sep) == b + sep + (c + sep + d);
    assert [a, b, c, d][1..] == [b, c, d];
  }

  lemma BareValidated(id: string, time: string, message: string)
    requires Required(id, time, message)
    ensures Validated(Bare(id, time, message)) && Collected(Bare(id, time, message)) == []
  {
    ScalarsCollectNothing(Bare(id, time, message), 4);
  }

  /** It is grouped by its whole text, event id and time included. */
  lemma BareFallsBack(id: string, time: string, message: string, quote: string -> string)
    requires Required(id, time, message)
    ensures var event := Bare(id, time, message);
            && Validated(event) && Collected(event) == []
            && Preimage(event, quote) == "1" + "," + (quote(id) + "," + (quote(time) + "," + quote(message)))
  {
    var event := Bare(id, time, message);
    BareValidated(id, time, message);
    FallbackExactly(event, quote);
    CanonicalItemsAt(event, 4, quote);
    var texts := CanonicalItems(event, 4, quote);
    assert texts == ["1", quote(id), quote(time), quote(message)] && Canonical(event, quote) == Join(texts, ",");
    JoinOfFour("1", quote(id), quote(time), quote(message), ",");
  }

  /** An array with an error of some type, and components at their place or not. */
  function Positional(id: string, time: string, message: string, error: Json, components: seq<Json>): Json {
    Arr(Leading(id, time, message, error) + components)
  }

  function Leading(id: string, time: string, message: string, error: Json): (items: seq<Json>)
    ensures |items| == 14
  {
    [Number("1"), Str(id), Str(time), Str(message), error, Str("error"), Null, Null, Null,
     Arr([]), Arr([]), Obj(map[]), Obj(map[]), Null]
  }

  lemma {:induction false} ItemCollected(value: Json, n: nat, k: nat)
    requires value.Arr? && k < n <= |value.items| && Collected(value.items[k]) != []
    ensures ItemParts(value, n) != []
  {
    if k < n - 1 { ItemCollected(value, n - 1, k); }
  }

  lemma ErrorTypeCollected(fields: map<string, Json>)
    requires "type" in fields && fields["type"].Str?
    ensures Collected(Obj(fields)) != []
  {
    assert TEXT_KEYS[..3] == ["exception_type", "error_type", "type"] && TextPart(fields, "type") != [];
    assert TextParts(fields, TEXT_KEYS[..3]) != [];
  }

  lemma PositionalValidated(id: string, time: string, message: string, error: Json, components: Json)
    requires Required(id, time, message) && IsComponents(components)
    ensures var a := Positional(id, time, message, error, [components]);
            && Validated(a) && HasComponents(a) && a.items[4] == error && a.items[14] == components
            && WithoutComponents(a) == Positional(id, time, message, error, [])
  {
    var a, head := Positional(id, time, message, error, [components]), Leading(id, time, message, error);
    assert a.items[..14] == head == head + [];
    assert forall k | 0 <= k < 14 :: a.items[k] == head[k];
    assert Field(a, 0) == Some(head[0]) && Field(a, 1) == Some(head[1]) && Field(a, 2) == Some(head[2]);
    assert Field(a, 3) == Some(head[3]) && Field(a, 14) == Some(components);
  }

  /** By position, explicit components are accepted and then ignored. */
  lemma PositionalComponentsIgnored(id: string, time: string, message: string, fields: map<string, Json>,
                                    components: Json, quote: string -> string)
    requires Required(id, time, message) && IsComponents(components) && "type" in fields && fields["type"].Str?
    ensures var a := Positional(id, time, message, Obj(fields), [components]);
            var b := Positional(id, time, message, Obj(fields), []);
            && Validated(a) && HasComponents(a) && Validated(b) && !HasComponents(b)
            && Preimage(a, quote) == Preimage(b, quote)
  {
    var a := Positional(id, time, message, Obj(fields), [components]);
    PositionalValidated(id, time, message, Obj(fields), components);
    WithoutComponentsValidated(a);
    ErrorTypeCollected(fields);
    ItemCollected(a, 15, 4);
    ExplicitExactly(a, quote);
  }

  lemma {:induction false} EmptyTexts(keys: seq<string>)
    ensures TextParts(map[], keys) == [] && NestedParts(Obj(map[]), keys) == []
  {
    if keys != [] { EmptyTexts(keys[..|keys| - 1]); }
  }

  lemma EmptyCollectsNothing()
    ensures Collected(Obj(map[])) == [] && Collected(Arr([])) == []
  {
    EmptyTexts(TEXT_KEYS);
    EmptyTexts(NESTED_KEYS);
  }

  lemma LeadingCollectsNothing(id: string, time: string, message: string)
    ensures forall k | 0 <= k < 14 :: Collected(Leading(id, time, message, Null)[k]) == []
  {
    var items := Leading(id, time, message, Null);
    EmptyCollectsNothing();
    forall k | 0 <= k < 14 ensures Collected(items[k]) == [] {
      assert items[k] == Obj(map[]) || items[k] == Arr([]) || (!items[k].Arr? && !items[k].Obj?);
    }
  }

  lemma PlainCollectsNothing(id: string, time: string, message: string, components: Json)
    requires Required(id, time, message) && IsComponents(components)
    ensures Collected(Positional(id, time, message, Null, [components])) == []
  {
    var a := Positional(id, time, message, Null, [components]);
    LeadingCollectsNothing(id, time, message);
    StringsCollectNothing(components, |components.items|);
    assert forall k | 0 <= k < 14 :: a.items[k] == Leading(id, time, message, Null)[k];
    assert |a.items| == 15 && a.items[14] == components;
    NothingCollected(a, 15);
  }

  /** Nothing keeps components by position apart from the same texts by position
      in a user: up to three behind a missing user id are accepted there. */
  lemma ComponentsReadAsUser(id: string, time: string, message: string, components: seq<Json>, quote: string -> string)
    requires Required(id, time, message) && IsComponents(Arr(components)) && |components| <= 3
    ensures var a := Positional(id, time, message, Null, [Arr(components)]);
            var b := Arr(a.items[..13] + [Behind(Null, components)]);
            && Validated(a) && HasComponents(a) && Validated(b) && !HasComponents(b)
            && Preimage(a, quote) == Preimage(b, quote)
  {
    var a := Positional(id, time, message, Null, [Arr(components)]);
    PositionalValidated(id, time, message, Null, Arr(components));
    PlainCollectsNothing(id, time, message, Arr(components));
    FoldedValidated(a);
    FoldedSameText(a, quote);
    assert a.items[13] == Null && a.items[14] == Arr(components);
  }
}
