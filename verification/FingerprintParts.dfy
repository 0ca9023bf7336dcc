/** What the fingerprint walk finds, said key by key, and that what it finds
    tells events apart. */
module FingerprintParts {
  import opened Text
  import opened Fingerprint

  // ---- One object --------------------------------------------------------

  predicate IsTextKey(key: string) {
    key == "exception_type" || key == "error_type" || key == "type" || key == "message"
  }

  predicate IsNestedKey(key: string) {
    || key == "frames" || key == "stack_frames" || key == "stacktrace"
    || key == "exceptions" || key == "exception" || key == "error"
  }

  /** The part of one text key. */
  function Labelled(fields: map<string, Json>, key: string): seq<string> {
    if key in fields && fields[key].Str? then [key + ":" + fields[key].text] else []
  }

  function Below(fields: map<string, Json>, key: string): seq<string> {
    if key in fields then Collected(fields[key]) else []
  }

  /** The text under the first spelling that is present. */
  function Spelled(fields: map<string, Json>, key: string, other: string): Option<string> {
    if key in fields then (if fields[key].Str? then Some(fields[key].text) else None)
    else if other in fields && fields[other].Str? then Some(fields[other].text)
    else None
  }

  function FrameText(file: string, name: string): string {
    "frame:" + file + ":" + name
  }

  function Frame(fields: map<string, Json>): seq<string> {
    var file, name := Spelled(fields, "filename", "file"), Spelled(fields, "function", "function_name");
    if file.Some? && name.Some? then [FrameText(file.value, name.value)] else []
  }

  function Texts(fields: map<string, Json>): seq<string> {
    Labelled(fields, "exception_type") + Labelled(fields, "error_type")
    + Labelled(fields, "type") + Labelled(fields, "message")
  }

  /** One more text key. */
  lemma TextKey(fields: map<string, Json>, k: nat, key: string)
    requires k < 4 && TEXT_KEYS[k] == key
    ensures TextParts(fields, TEXT_KEYS[..k + 1]) == TextParts(fields, TEXT_KEYS[..k]) + Labelled(fields, key)
  {
    TextPartsStep(fields, TEXT_KEYS, k);
  }

  lemma TextsCollected(fields: map<string, Json>)
    ensures TextParts(fields, TEXT_KEYS) == Texts(fields)
  {
    FirstTexts(fields);
    TextKey(fields, 2, "type");
    TextKey(fields, 3, "message");
    assert TEXT_KEYS[..4] == TEXT_KEYS;
  }

  lemma FirstTexts(fields: map<string, Json>)
    ensures TextParts(fields, TEXT_KEYS[..2]) == Labelled(fields, "exception_type") + Labelled(fields, "error_type")
  {
    TextKey(fields, 0, "exception_type");
    TextKey(fields, 1, "error_type");
    assert TEXT_KEYS[..0] == [] && TextParts(fields, []) == [];
  }

  function Nested(fields: map<string, Json>): seq<string> {
    Below(fields, "frames") + Below(fields, "stack_frames") + Below(fields, "stacktrace")
    + Below(fields, "exceptions") + Below(fields, "exception") + Below(fields, "error")
  }

  /** One more nested key. */
  lemma NestedKey(fields: map<string, Json>, k: nat, key: string)
    requires k < 6 && NESTED_KEYS[k] == key
    ensures NestedParts(Obj(fields), NESTED_KEYS[..k + 1])
            == NestedParts(Obj(fields), NESTED_KEYS[..k]) + Below(fields, key)
  {
    NestedPartsStep(Obj(fields), NESTED_KEYS, k);
  }

  lemma NestedCollected(fields: map<string, Json>)
    ensures NestedParts(Obj(fields), NESTED_KEYS) == Nested(fields)
  {
    FirstNested(fields);
    MoreNested(fields);
    NestedKey(fields, 4, "exception");
    NestedKey(fields, 5, "error");
    assert NESTED_KEYS[..6] == NESTED_KEYS;
  }

  lemma FirstNested(fields: map<string, Json>)
    ensures NestedParts(Obj(fields), NESTED_KEYS[..2]) == Below(fields, "frames") + Below(fields, "stack_frames")
  {
    NestedKey(fields, 0, "frames");
    NestedKey(fields, 1, "stack_frames");
    assert NESTED_KEYS[..0] == [] && NestedParts(Obj(fields), []) == [];
  }

  lemma MoreNested(fields: map<string, Json>)
    ensures NestedParts(Obj(fields), NESTED_KEYS[..4])
            == Below(fields, "frames") + Below(fields, "stack_frames") + Below(fields, "stacktrace")
               + Below(fields, "exceptions")
  {
    FirstNested(fields);
    NestedKey(fields, 2, "stacktrace");
    NestedKey(fields, 3, "exceptions");
  }

  /** An object's parts in order: its four texts, what its six nested fields hold,
      and last its own file and function. */
  lemma ObjectOrder(fields: map<string, Json>)
    ensures Collected(Obj(fields)) == Texts(fields) + Nested(fields) + Frame(fields)
  {
    TextsCollected(fields);
    NestedCollected(fields);
  }

  /** An array's parts are those of its items, in order; scalars hold none. */
  lemma ArrayOrder(items: seq<Json>, item: Json)
    ensures Collected(Arr([])) == []
    ensures Collected(Arr(items + [item])) == Collected(Arr(items)) + Collected(item)
    ensures !item.Arr? && !item.Obj? ==> Collected(item) == []
  {
    var all := Arr(items + [item]);
    assert items <= all.items;
    ItemPartsPrefix(all, Arr(items), |items|);
    assert all.items[|items|] == item;
  }

  // ---- The whole event ---------------------------------------------------

  /** One step down: a nested field, or an item. */
  datatype Hop = Field(key: string) | Item(index: nat)

  /** The object holds the part: a text under its key, or its file and function. */
  ghost predicate HeldBy(fields: map<string, Json>, part: string) {
    || (exists key :: IsTextKey(key) && key in fields && fields[key].Str? && part == key + ":" + fields[key].text)
    || (var file, name := Spelled(fields, "filename", "file"), Spelled(fields, "function", "function_name");
        file.Some? && name.Some? && part == FrameText(file.value, name.value))
  }

  /** The value reached by the hops. */
  function At(value: Json, path: seq<Hop>): Option<Json>
    decreases |path|
  {
    if path == [] then Some(value)
    else match path[0]
         case Field(key) =>
           if value.Obj? && IsNestedKey(key) && key in value.fields then At(value.fields[key], path[1..]) else None
         case Item(index) =>
           if value.Arr? && index < |value.items| then At(value.items[index], path[1..]) else None
  }

  ghost predicate HeldAt(value: Json, path: seq<Hop>, part: string) {
    At(value, path).Some? && At(value, path).value.Obj? && HeldBy(At(value, path).value.fields, part)
  }

  ghost predicate HeldSomewhere(value: Json, part: string) {
    exists path :: HeldAt(value, path, part)
  }

  lemma HeldIsOwn(fields: map<string, Json>, part: string)
    ensures HeldBy(fields, part) <==> part in Texts(fields) || part in Frame(fields)
  {
    if key :| IsTextKey(key) && key in fields && fields[key].Str? && part == key + ":" + fields[key].text {
      assert part in Labelled(fields, key);
    }
    if part in Texts(fields) {
      var key := if part in Labelled(fields, "exception_type") then "exception_type"
                 else if part in Labelled(fields, "error_type") then "error_type"
                 else if part in Labelled(fields, "type") then "type" else "message";
      assert IsTextKey(key) && part in Labelled(fields, key);
    }
  }

  lemma {:induction false} ItemMember(value: Json, n: nat, part: string)
    requires value.Arr? && n <= |value.items|
    ensures part in ItemParts(value, n) <==> exists i :: 0 <= i < n && part in Collected(value.items[i])
  {
    if n > 0 { ItemMember(value, n - 1, part); }
  }

  /** Everything held somewhere is collected. */
  lemma {:induction false} HeldIsCollected(value: Json, path: seq<Hop>, part: string)
    requires HeldAt(value, path, part)
    ensures part in Collected(value)
    decreases |path|
  {
    if path == [] {
      HeldIsOwn(value.fields, part);
      ObjectOrder(value.fields);
    } else {
      match path[0]
      case Field(key) =>
        HeldIsCollected(value.fields[key], path[1..], part);
        assert part in Below(value.fields, key);
        ObjectOrder(value.fields);
      case Item(index) =>
        HeldIsCollected(value.items[index], path[1..], part);
        ItemMember(value, |value.items|, part);
    }
  }

  lemma Deeper(value: Json, hop: Hop, below: Json, path: seq<Hop>, part: string)
    requires HeldAt(below, path, part)
    requires match hop
             case Field(key) => value.Obj? && IsNestedKey(key) && key in value.fields && value.fields[key] == below
             case Item(index) => value.Arr? && index < |value.items| && value.items[index] == below
    ensures HeldSomewhere(value, part)
  {
    assert ([hop] + path)[1..] == path;
    assert HeldAt(value, [hop] + path, part);
  }

  lemma NestedField(fields: map<string, Json>, part: string) returns (key: string)
    requires part in Nested(fields)
    ensures IsNestedKey(key) && key in fields && part in Collected(fields[key])
  {
    key := if part in Below(fields, "frames") then "frames"
           else if part in Below(fields, "stack_frames") then "stack_frames"
           else if part in Below(fields, "stacktrace") then "stacktrace"
           else if part in Below(fields, "exceptions") then "exceptions"
           else if part in Below(fields, "exception") then "exception" else "error";
  }

  /** Everything collected is held somewhere. */
  lemma {:induction false} CollectedIsHeld(value: Json, part: string)
    requires part in Collected(value)
    ensures HeldSomewhere(value, part)
    decreases value
  {
    match value
    case Obj(fields) =>
      ObjectOrder(fields);
      if part in Nested(fields) {
        var key := NestedField(fields, part);
        CollectedIsHeld(fields[key], part);
        var path :| HeldAt(fields[key], path, part);
        Deeper(value, Field(key), fields[key], path, part);
      } else {
        HeldIsOwn(fields, part);
        assert HeldAt(value, [], part);
      }
    case Arr(items) =>
      ItemMember(value, |items|, part);
      var i :| 0 <= i < |items| && part in Collected(items[i]);
      CollectedIsHeld(items[i], part);
      var path :| HeldAt(items[i], path, part);
      Deeper(value, Item(i), items[i], path, part);
    case _ =>
  }

  /** A part is collected exactly when some object, reached through the six nested
      keys and array items, holds it. */
  lemma CollectedExactly(value: Json, part: string)
    ensures part in Collected(value) <==> HeldSomewhere(value, part)
  {
    if part in Collected(value) { CollectedIsHeld(value, part); }
    if path :| HeldAt(value, path, part) { HeldIsCollected(value, path, part); }
  }

  // ---- One place of the event --------------------------------------------

  /** The value with what the hops reach replaced. */
  function Put(value: Json, path: seq<Hop>, x: Json): Json
    requires At(value, path).Some?
    decreases |path|
  {
    if path == [] then x
    else match path[0]
         case Field(key) => Obj(value.fields[key := Put(value.fields[key], path[1..], x)])
         case Item(index) => Arr(value.items[index := Put(value.items[index], path[1..], x)])
  }

  lemma NestedDistinct()
    ensures forall i: nat, j: nat :: i < j < |NESTED_KEYS| ==> NESTED_KEYS[i] != NESTED_KEYS[j]
  {
    forall i: nat, j: nat | i < j < |NESTED_KEYS| ensures NESTED_KEYS[i] != NESTED_KEYS[j] {
      assert |NESTED_KEYS[i]| != |NESTED_KEYS[j]| || NESTED_KEYS[i][5] != NESTED_KEYS[j][5]
        || NESTED_KEYS[i][0] != NESTED_KEYS[j][0];
    }
  }

  lemma TextDistinct()
    ensures forall i: nat, j: nat :: i < j < |TEXT_KEYS| ==> TEXT_KEYS[i] != TEXT_KEYS[j]
  {
    forall i: nat, j: nat | i < j < |TEXT_KEYS| ensures TEXT_KEYS[i] != TEXT_KEYS[j] {
      assert |TEXT_KEYS[i]| != |TEXT_KEYS[j]|;
    }
  }

  ghost predicate IsFrameKey(key: string) {
    key == "filename" || key == "file" || key == "function" || key == "function_name"
  }

  lemma NestedApart(key: string)
    requires IsNestedKey(key)
    ensures key in NESTED_KEYS && key !in TEXT_KEYS && !IsFrameKey(key)
  {
    assert |key| == 6 || |key| == 12 || |key| == 10 || |key| == 9 || |key| == 5;
    NestedIn(key);
  }

  lemma NestedIn(key: string)
    requires IsNestedKey(key)
    ensures key in NESTED_KEYS
  {
    assert NESTED_KEYS[0] == "frames" && NESTED_KEYS[1] == "stack_frames" && NESTED_KEYS[2] == "stacktrace";
    assert NESTED_KEYS[3] == "exceptions" && NESTED_KEYS[4] == "exception" && NESTED_KEYS[5] == "error";
  }

  lemma TextApart(key: string)
    requires IsTextKey(key)
    ensures key in TEXT_KEYS && key !in NESTED_KEYS && !IsFrameKey(key)
  {
    assert |key| == 14 || |key| == 10 || |key| == 4 || |key| == 7;
    TextIn(key);
  }

  lemma TextIn(key: string)
    requires IsTextKey(key)
    ensures key in TEXT_KEYS
  {
    assert TEXT_KEYS[0] == "exception_type" && TEXT_KEYS[1] == "error_type";
    assert TEXT_KEYS[2] == "type" && TEXT_KEYS[3] == "message";
  }

  lemma {:induction false} OtherTexts(fields: map<string, Json>, keys: seq<string>, key: string, x: Json)
    requires key !in keys
    ensures TextParts(fields[key := x], keys) == TextParts(fields, keys)
  {
    if keys != [] { OtherTexts(fields, keys[..|keys| - 1], key, x); }
  }

  lemma {:induction false} OtherNested(fields: map<string, Json>, keys: seq<string>, key: string, x: Json)
    requires key !in keys
    ensures NestedParts(Obj(fields[key := x]), keys) == NestedParts(Obj(fields), keys)
  {
    if keys != [] { OtherNested(fields, keys[..|keys| - 1], key, x); }
  }

  lemma OtherFrame(fields: map<string, Json>, key: string, x: Json)
    requires !IsFrameKey(key)
    ensures FrameParts(fields[key := x]) == FrameParts(fields)
  {
  }

  /** What surrounds the parts of one nested key, whatever is under it. */
  lemma {:induction false} AroundNested(fields: map<string, Json>, keys: seq<string>, k: nat)
    returns (before: seq<string>, behind: seq<string>)
    requires k < |keys| && forall i: nat, j: nat :: i < j < |keys| ==> keys[i] != keys[j]
    ensures forall x :: NestedParts(Obj(fields[keys[k] := x]), keys) == before + Collected(x) + behind
  {
    var n := |keys| - 1;
    var key, last := keys[k], keys[n];
    if k == n {
      before, behind := NestedParts(Obj(fields), keys[..n]), [];
      forall x ensures NestedParts(Obj(fields[key := x]), keys) == before + Collected(x) + behind {
        OtherNested(fields, keys[..n], key, x);
      }
    } else {
      var pre, post := AroundNested(fields, keys[..n], k);
      before, behind := pre, post + (if last in fields then Collected(fields[last]) else []);
      forall x ensures NestedParts(Obj(fields[key := x]), keys) == before + Collected(x) + behind {
        assert NestedParts(Obj(fields[keys[..n][k] := x]), keys[..n]) == pre + Collected(x) + post;
        assert fields[key := x].Keys == fields.Keys + {key};
      }
    }
  }

  /** What surrounds the part of one text key, whatever its text. */
  lemma {:induction false} AroundText(fields: map<string, Json>, keys: seq<string>, k: nat)
    returns (before: seq<string>, behind: seq<string>)
    requires k < |keys| && forall i: nat, j: nat :: i < j < |keys| ==> keys[i] != keys[j]
    ensures forall t :: TextParts(fields[keys[k] := Str(t)], keys) == before + [keys[k] + ":" + t] + behind
  {
    var n := |keys| - 1;
    var key, last := keys[k], keys[n];
    if k == n {
      before, behind := TextParts(fields, keys[..n]), [];
      forall t ensures TextParts(fields[key := Str(t)], keys) == before + [key + ":" + t] + behind {
        OtherTexts(fields, keys[..n], key, Str(t));
      }
    } else {
      var pre, post := AroundText(fields, keys[..n], k);
      before, behind := pre, post + TextPart(fields, last);
      forall t ensures TextParts(fields[key := Str(t)], keys) == before + [key + ":" + t] + behind {
        assert TextParts(fields[keys[..n][k] := Str(t)], keys[..n]) == pre + [key + ":" + t] + post;
      }
    }
  }

  /** What surrounds one nested field of an object. */
  lemma AroundKey(fields: map<string, Json>, key: string) returns (before: seq<string>, behind: seq<string>)
    requires IsNestedKey(key)
    ensures forall x :: Collected(Obj(fields[key := x])) == before + Collected(x) + behind
  {
    NestedApart(key);
    NestedDistinct();
    var k: nat :| k < |NESTED_KEYS| && NESTED_KEYS[k] == key;
    var pre, post := AroundNested(fields, NESTED_KEYS, k);
    var texts, frame := TextParts(fields, TEXT_KEYS), FrameParts(fields);
    before, behind := texts + pre, post + frame;
    forall x ensures Collected(Obj(fields[key := x])) == before + Collected(x) + behind {
      OtherTexts(fields, TEXT_KEYS, key, x);
      OtherFrame(fields, key, x);
      Around3(texts, pre, Collected(x), post, frame);
    }
  }

  /** What surrounds one text of an object. */
  lemma AroundTextKey(fields: map<string, Json>, key: string) returns (before: seq<string>, behind: seq<string>)
    requires IsTextKey(key)
    ensures forall t :: Collected(Obj(fields[key := Str(t)])) == before + [key + ":" + t] + behind
  {
    TextApart(key);
    TextDistinct();
    var k: nat :| k < |TEXT_KEYS| && TEXT_KEYS[k] == key;
    var pre, post := AroundText(fields, TEXT_KEYS, k);
    var nested, frame := NestedParts(Obj(fields), NESTED_KEYS), FrameParts(fields);
    before, behind := pre, post + nested + frame;
    forall t ensures Collected(Obj(fields[key := Str(t)])) == before + [key + ":" + t] + behind {
      OtherNested(fields, NESTED_KEYS, key, Str(t));
      OtherFrame(fields, key, Str(t));
      Behind3(pre, [key + ":" + t], post, nested, frame);
    }
  }

  lemma {:induction false} ArrayConcat(a: seq<Json>, b: seq<Json>)
    ensures Collected(Arr(a + b)) == Collected(Arr(a)) + Collected(Arr(b))
  {
    if b == [] {
      assert a + b == a;
      ArrayOrder([], Null);
    } else {
      var init, last := b[..|b| - 1], b[|b| - 1];
      assert b == init + [last] && a + b == (a + init) + [last];
      ArrayConcat(a, init);
      ArrayOrder(a + init, last);
      ArrayOrder(init, last);
    }
  }

  lemma ArrayPut(items: seq<Json>, i: nat, x: Json)
    requires i < |items|
    ensures Collected(Arr(items[i := x])) == Collected(Arr(items[..i])) + Collected(x) + Collected(Arr(items[i + 1..]))
  {
    assert items[i := x] == (items[..i] + [x]) + items[i + 1..];
    ArrayConcat(items[..i] + [x], items[i + 1..]);
    ArrayOrder(items[..i], x);
  }

  lemma Around3(a: seq<string>, pre: seq<string>, x: seq<string>, post: seq<string>, b: seq<string>)
    ensures a + (pre + x + post) + b == (a + pre) + x + (post + b)
  {
  }

  lemma Behind3(pre: seq<string>, x: seq<string>, post: seq<string>, a: seq<string>, b: seq<string>)
    ensures (pre + x + post) + a + b == pre + x + (post + a + b)
  {
  }

  /** What is collected around a place does not depend on what is at the place. */
  lemma {:induction false} Around(value: Json, path: seq<Hop>) returns (before: seq<string>, behind: seq<string>)
    requires At(value, path).Some?
    ensures forall x :: Collected(Put(value, path, x)) == before + Collected(x) + behind
    decreases |path|
  {
    if path == [] {
      before, behind := [], [];
    } else {
      match path[0]
      case Field(key) => before, behind := AroundField(value.fields, key, path);
      case Item(index) => before, behind := AroundItem(value.items, index, path);
    }
  }

  lemma {:induction false} AroundField(fields: map<string, Json>, key: string, path: seq<Hop>)
    returns (before: seq<string>, behind: seq<string>)
    requires path != [] && path[0] == Field(key) && At(Obj(fields), path).Some?
    ensures forall x :: Collected(Put(Obj(fields), path, x)) == before + Collected(x) + behind
    decreases |path|, 0
  {
    var pre, post := Around(fields[key], path[1..]);
    var a, b := AroundKey(fields, key);
    before, behind := a + pre, post + b;
    forall x ensures Collected(Put(Obj(fields), path, x)) == before + Collected(x) + behind {
      Around3(a, pre, Collected(x), post, b);
    }
  }

  lemma {:induction false} AroundItem(items: seq<Json>, index: nat, path: seq<Hop>)
    returns (before: seq<string>, behind: seq<string>)
    requires path != [] && path[0] == Item(index) && At(Arr(items), path).Some?
    ensures forall x :: Collected(Put(Arr(items), path, x)) == before + Collected(x) + behind
    decreases |path|, 0
  {
    var pre, post := Around(items[index], path[1..]);
    var a, b := Collected(Arr(items[..index])), Collected(Arr(items[index + 1..]));
    before, behind := a + pre, post + b;
    forall x ensures Collected(Put(Arr(items), path, x)) == before + Collected(x) + behind {
      ArrayPut(items, index, Put(items[index], path[1..], x));
      Around3(a, pre, Collected(x), post, b);
    }
  }

  // ---- Telling events apart ----------------------------------------------

  ghost predicate SingleLines(parts: seq<string>) {
    forall i | 0 <= i < |parts| :: '\n' !in parts[i]
  }

  /** An accepted object the server groups by what it collects, line by line. */
  ghost predicate Grouped(event: Json) {
    Validated(event) && event.Obj? && !HasComponents(event) && SingleLines(Collected(event))
  }

  lemma SameTextSameParts(a: Json, b: Json, quote: string -> string)
    requires Grouped(a) && Grouped(b)
    ensures Preimage(a, quote) == Preimage(b, quote) <==> Collected(a) == Collected(b)
  {
    MessageCollected(a);
    MessageCollected(b);
    FallbackExactly(a, quote);
    FallbackExactly(b, quote);
    assert FIELDS[14] == "fingerprint";
    SplitOfComponents(Collected(a));
    SplitOfComponents(Collected(b));
    LinesOfSingleLines(Collected(a));
    LinesOfSingleLines(Collected(b));
  }

  /** Two events that differ at one place are one group exactly when the same is
      collected there. */
  lemma PlaceDecides(event: Json, path: seq<Hop>, x: Json, y: Json, quote: string -> string)
    requires At(event, path).Some? && Grouped(Put(event, path, x)) && Grouped(Put(event, path, y))
    ensures Preimage(Put(event, path, x), quote) == Preimage(Put(event, path, y), quote)
            <==> Collected(x) == Collected(y)
  {
    SameTextSameParts(Put(event, path, x), Put(event, path, y), quote);
    var before, behind := Around(event, path);
    CancelAround(before, Collected(x), Collected(y), behind);
  }

  lemma CancelAround(before: seq<string>, x: seq<string>, y: seq<string>, behind: seq<string>)
    ensures before + x + behind == before + y + behind <==> x == y
  {
    if before + x + behind == before + y + behind {
      assert |x| == |y|;
      assert (before + x + behind)[|before|..|before| + |x|] == x;
      assert (before + y + behind)[|before|..|before| + |y|] == y;
    }
  }

  lemma FrameTextInjective(file: string, name: string, file': string, name': string)
    requires ':' !in file && ':' !in file'
    ensures FrameText(file, name) == FrameText(file', name') <==> file == file' && name == name'
  {
    if FrameText(file, name) == FrameText(file', name') {
      var p := "frame:";
      assert FrameText(file, name)[|p|..] == file + ":" + name && FrameText(file', name')[|p|..] == file' + ":" + name';
      SplitAppend(file, ':', name);
      SplitAppend(file', ':', name');
      SplitFree(file, ':');
      SplitFree(file', ':');
      assert Split(file + ":" + name, ':')[0] == file && Split(file' + ":" + name', ':')[0] == file';
      assert (file + ":" + name)[|file| + 1..] == name && (file' + ":" + name')[|file'| + 1..] == name';
    }
  }

  /** A frame with its file and function, and what else it carries. */
  ghost predicate IsFrame(fields: map<string, Json>, file: string, name: string) {
    Spelled(fields, "filename", "file") == Some(file) && Spelled(fields, "function", "function_name") == Some(name)
  }

  /** Anywhere in an event, another file or another function in a frame is another
      group. */
  lemma FrameDecides(event: Json, path: seq<Hop>, f: map<string, Json>, g: map<string, Json>,
                     file: string, name: string, file': string, name': string, quote: string -> string)
    requires At(event, path).Some? && Grouped(Put(event, path, Obj(f))) && Grouped(Put(event, path, Obj(g)))
    requires IsFrame(f, file, name) && IsFrame(g, file', name') && ':' !in file && ':' !in file'
    requires Texts(f) == Texts(g) && Nested(f) == Nested(g)
    ensures Preimage(Put(event, path, Obj(f)), quote) == Preimage(Put(event, path, Obj(g)), quote)
            <==> file == file' && name == name'
  {
    PlaceDecides(event, path, Obj(f), Obj(g), quote);
    ObjectOrder(f);
    ObjectOrder(g);
    CancelAround(Texts(f) + Nested(f), Frame(f), Frame(g), []);
    assert Texts(f) + Nested(f) + Frame(f) + [] == Texts(f) + Nested(f) + Frame(f);
    assert Texts(f) + Nested(f) + Frame(g) + [] == Texts(f) + Nested(f) + Frame(g);
    FrameTextInjective(file, name, file', name');
  }

  lemma TextChanges(fields: map<string, Json>, key: string, t: string, u: string)
    requires IsTextKey(key)
    ensures Collected(Obj(fields[key := Str(t)])) == Collected(Obj(fields[key := Str(u)])) <==> t == u
  {
    var before, behind := AroundTextKey(fields, key);
    CancelAround(before, [key + ":" + t], [key + ":" + u], behind);
    assert (key + ":" + t)[|key + ":"|..] == t && (key + ":" + u)[|key + ":"|..] == u;
  }

  /** Anywhere in an event, another text under one of the four text keys is another
      group. */
  lemma TextDecides(event: Json, path: seq<Hop>, fields: map<string, Json>, key: string, t: string, u: string,
                    quote: string -> string)
    requires IsTextKey(key) && At(event, path).Some?
    requires Grouped(Put(event, path, Obj(fields[key := Str(t)])))
    requires Grouped(Put(event, path, Obj(fields[key := Str(u)])))
    ensures (Preimage(Put(event, path, Obj(fields[key := Str(t)])), quote)
             == Preimage(Put(event, path, Obj(fields[key := Str(u)])), quote)) <==> t == u
  {
    PlaceDecides(event, path, Obj(fields[key := Str(t)]), Obj(fields[key := Str(u)]), quote);
    TextChanges(fields, key, t, u);
  }

  function OneFrame(file: string, name: string): map<string, Json> {
    map["file" := Str(file), "function" := Str(name)]
  }

  function Stacked(message: string, frames: Json): map<string, Json> {
    map["message" := Str(message), "frames" := frames]
  }

  lemma NoTexts(fields: map<string, Json>)
    requires "exception_type" !in fields && "error_type" !in fields && "type" !in fields && "message" !in fields
    ensures Texts(fields) == []
  {
  }

  lemma NoNested(fields: map<string, Json>)
    requires "frames" !in fields && "stack_frames" !in fields && "stacktrace" !in fields
    requires "exceptions" !in fields && "exception" !in fields && "error" !in fields
    ensures Nested(fields) == []
  {
  }

  lemma OneFrameParts(file: string, name: string)
    ensures Collected(Obj(OneFrame(file, name))) == [FrameText(file, name)]
  {
    var fields := OneFrame(file, name);
    ObjectOrder(fields);
    NoTexts(fields);
    NoNested(fields);
  }

  lemma TextOfMessage(fields: map<string, Json>, message: string)
    requires "message" in fields && fields["message"] == Str(message)
    requires "exception_type" !in fields && "error_type" !in fields && "type" !in fields
    ensures Texts(fields) == ["message:" + message]
  {
    assert "message" + ":" + message == "message:" + message;
  }

  lemma NestedOfFrames(fields: map<string, Json>, frames: Json)
    requires "frames" in fields && fields["frames"] == frames
    requires "stack_frames" !in fields && "stacktrace" !in fields
    requires "exceptions" !in fields && "exception" !in fields && "error" !in fields
    ensures Nested(fields) == Collected(frames)
  {
  }

  lemma StackedParts(message: string, frames: Json)
    ensures Collected(Obj(Stacked(message, frames))) == ["message:" + message] + Collected(frames)
  {
    var fields := Stacked(message, frames);
    ObjectOrder(fields);
    TextOfMessage(fields, message);
    NestedOfFrames(fields, frames);
    assert Frame(fields) == [];
  }

  lemma JoinTwo(a: string, b: string, sep: string)
    ensures Join([a, b], sep) == a + sep + b
  {
    assert [a, b][1..] == [b];
  }

  lemma HashedTogether(fields: map<string, Json>, a: string, b: string, quote: string -> string)
    requires "fingerprint" !in fields && Collected(Obj(fields)) == [a, b]
    ensures Preimage(Obj(fields), quote) == a + "\n" + b
  {
    JoinTwo(a, b, "\n");
  }

  /** A message and a stack of one frame hash as two lines. */
  lemma StackHashed(message: string, file: string, name: string, quote: string -> string)
    ensures Preimage(Obj(Stacked(message, Arr([Obj(OneFrame(file, name))]))), quote)
            == "message:" + message + "\n" + FrameText(file, name)
  {
    var item := Obj(OneFrame(file, name));
    OneFrameParts(file, name);
    ArrayOrder([], item);
    assert [] + [item] == [item];
    StackedParts(message, Arr([item]));
    HashedTogether(Stacked(message, Arr([item])), "message:" + message, FrameText(file, name), quote);
  }

  // ---- The fallback text -------------------------------------------------

  lemma {:induction false} EntriesInOrder(value: Json, keys: seq<string>, quote: string -> string)
    requires value.Obj? && forall key | key in keys :: key in value.fields
    ensures var texts := CanonicalEntries(value, keys, quote);
            && |texts| == |keys|
            && forall i | 0 <= i < |keys| :: texts[i] == keys[i] + ":" + Canonical(value.fields[keys[i]], quote)
  {
    if keys != [] { EntriesInOrder(value, keys[1..], quote); }
  }

  /** The fallback text of an object lists each of its fields once, by ascending key,
      and that of an array each item in place. */
  lemma CanonicalLists(fields: map<string, Json>, items: seq<Json>, quote: string -> string)
    returns (keys: seq<string>, entries: seq<string>, texts: seq<string>)
    ensures StrictlySorted(keys) && Elements(keys) == fields.Keys && |entries| == |keys| && |texts| == |items|
    ensures forall i | 0 <= i < |keys| ::
              keys[i] in fields && entries[i] == keys[i] + ":" + Canonical(fields[keys[i]], quote)
    ensures forall i | 0 <= i < |items| :: texts[i] == Canonical(items[i], quote)
    ensures Canonical(Obj(fields), quote) == Join(entries, "|") && Canonical(Arr(items), quote) == Join(texts, ",")
  {
    keys := SortedOf(fields.Keys);
    forall key | key in keys ensures key in fields { assert key in Elements(keys); }
    entries := CanonicalEntries(Obj(fields), keys, quote);
    EntriesInOrder(Obj(fields), keys, quote);
    texts := CanonicalItems(Arr(items), |items|, quote);
    CanonicalItemsAt(Arr(items), |items|, quote);
  }

  lemma CanonicalScalars(digits: string, text: string, quote: string -> string)
    ensures Canonical(Null, quote) == "null" && Canonical(Number(digits), quote) == digits
    ensures Canonical(Bool(true), quote) == "true" && Canonical(Bool(false), quote) == "false"
    ensures Canonical(Str(text), quote) == quote(text)
  {
  }

  // ---- Explicit components -----------------------------------------------

  /** Components that are texts are read in order, and others are skipped. */
  lemma {:induction false} StringsRead(items: seq<Json>, item: Json)
    ensures Strings(items + [item]) == Strings(items) + (if item.Str? then [item.text] else [])
  {
    var all, last := items + [item], if item.Str? then [item.text] else [];
    if items == [] {
      assert all == [item] && all[1..] == [] && Strings(all[1..]) == [];
    } else {
      var first := if items[0].Str? then [items[0].text] else [];
      StringsRead(items[1..], item);
      assert all[0] == items[0] && all[1..] == items[1..] + [item];
      assert Strings(items) == first + Strings(items[1..]) && Strings(all) == first + Strings(all[1..]);
      assert first + (Strings(items[1..]) + last) == first + Strings(items[1..]) + last;
    }
  }

  /** An empty list of components is as good as none. */
  lemma NoComponents(fields: map<string, Json>, quote: string -> string)
    requires Collected(Obj(fields)) != [] && "fingerprint" in fields && fields["fingerprint"] == Arr([])
    ensures Preimage(Obj(fields), quote) == Join(Collected(Obj(fields)), "\n")
  {
  }
}
