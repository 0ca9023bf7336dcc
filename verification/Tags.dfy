/** Issue tags (src/tags.rs): validation, list normalisation with its text form,
    and the labels an event's key/value tags turn into. */
module Tags {
  import opened Text

  const MAX_TAGS := 50
  const MAX_TAG_LEN := 64

  datatype TagError = Blank | TooLong | BadCharacter | TooMany

  function ValidateTag(raw: string): Result<string, TagError> {
    var tag := Trim(raw);
    if tag == [] then Err(Blank)
    else if |tag| > MAX_TAG_LEN then Err(TooLong)
    else if exists i | 0 <= i < |tag| :: IsWhitespace(tag[i]) || tag[i] == ',' then Err(BadCharacter)
    else Ok(tag)
  }

  ghost predicate ValidTag(tag: string) {
    1 <= |tag| <= MAX_TAG_LEN && NoWhitespace(tag) && ',' !in tag
  }

  /** What validation accepts is exactly a valid tag padded with blanks, and
      validating the accepted form again changes nothing. */
  lemma ValidateTagMeaning(raw: string)
    ensures ValidateTag(raw).Ok? <==> ValidTag(Trim(raw))
    ensures ValidateTag(raw).Ok? ==> ValidateTag(raw).value == Trim(raw)
    ensures ValidTag(raw) ==> ValidateTag(raw) == Ok(raw) && ValidateTag([' '] + raw) == Ok(raw)
  {
  }

  /** The tags gathered from a prefix of the raw list, or the first error. */
  function Gathered(raw: seq<string>): Result<seq<string>, TagError> {
    if raw == [] then Ok([])
    else
      var last := raw[|raw| - 1];
      match Gathered(raw[..|raw| - 1])
      case Err(e) => Err(e)
      case Ok(tags) =>
        if Trim(last) == [] then Ok(tags)
        else match ValidateTag(last)
             case Err(e) => Err(e)
             case Ok(tag) => Ok(if tag in tags then tags else tags + [tag])
  }

  function Normalized(raw: seq<string>): Result<seq<string>, TagError> {
    match Gathered(raw)
    case Err(e) => Err(e)
    case Ok(tags) => if |tags| > MAX_TAGS then Err(TooMany) else Ok(tags)
  }

  method NormalizeTags(raw: seq<string>) returns (r: Result<seq<string>, TagError>)
    ensures r == Normalized(raw)
  {
    var tags: seq<string> := [];
    var seen: set<string> := {};
    for k := 0 to |raw|
      invariant Gathered(raw[..k]) == Ok(tags)
      invariant forall t :: t in seen <==> t in tags
    {
      var value := raw[k];
      assert raw[..k + 1][..k] == raw[..k] && raw[..k + 1][k] == value;
      if Trim(value) == [] {
        continue;
      }
      var checked := ValidateTag(value);
      if checked.Err? {
        GatheredFailsEarly(raw, k + 1);
        return Err(checked.error);
      }
      if checked.value !in seen {
        seen := seen + {checked.value};
        tags := tags + [checked.value];
      }
    }
    assert raw[..|raw|] == raw;
    r := if |tags| > MAX_TAGS then Err(TooMany) else Ok(tags);
  }

  lemma {:induction false} GatheredFailsEarly(raw: seq<string>, k: nat)
    requires k <= |raw| && Gathered(raw[..k]).Err?
    ensures Gathered(raw) == Gathered(raw[..k])
  {
    if k < |raw| {
      assert raw[..|raw| - 1][..k] == raw[..k];
      GatheredFailsEarly(raw[..|raw| - 1], k);
    } else {
      assert raw[..k] == raw;
    }
  }

  // ---- What normalisation yields -----------------------------------------

  ghost predicate Acceptable(raw: seq<string>) {
    forall i | 0 <= i < |raw| :: Trim(raw[i]) == [] || ValidTag(Trim(raw[i]))
  }

  /** The distinct non-blank entries. */
  ghost function Named(raw: seq<string>): set<string> {
    set i | 0 <= i < |raw| && Trim(raw[i]) != [] :: Trim(raw[i])
  }

  /** Tag `a` occurs in the raw list before anything that reads as `b`. */
  ghost predicate Precedes(raw: seq<string>, a: string, b: string) {
    forall q | 0 <= q < |raw| && Trim(raw[q]) == b :: exists p :: 0 <= p < q && Trim(raw[p]) == a
  }

  lemma {:induction false} GatheredMeaning(raw: seq<string>)
    ensures Gathered(raw).Ok? <==> Acceptable(raw)
    ensures Gathered(raw).Ok? ==> NoDuplicates(Gathered(raw).value) && Elements(Gathered(raw).value) == Named(raw)
  {
    if raw != [] {
      var before, last := raw[..|raw| - 1], raw[|raw| - 1];
      GatheredMeaning(before);
      ValidateTagMeaning(last);
      assert Acceptable(raw) <==> Acceptable(before) && (Trim(last) == [] || ValidTag(Trim(last))) by {
        assert forall i | 0 <= i < |before| :: before[i] == raw[i];
      }
      assert Named(raw) == Named(before) + (if Trim(last) == [] then {} else {Trim(last)}) by {
        assert forall i | 0 <= i < |before| :: before[i] == raw[i];
      }
      if Gathered(before).Ok? && Trim(last) != [] {
        var tags := Gathered(before).value;
        ElementsOfAppend(tags, Trim(last));
        assert Trim(last) in tags <==> Trim(last) in Elements(tags);
      }
    }
  }

  lemma {:induction false} GatheredOrder(raw: seq<string>, i: nat, j: nat)
    requires Gathered(raw).Ok? && i < j < |Gathered(raw).value|
    ensures Precedes(raw, Gathered(raw).value[i], Gathered(raw).value[j])
  {
    var before, last := raw[..|raw| - 1], raw[|raw| - 1];
    var tags, all := Gathered(before).value, Gathered(raw).value;
    GatheredMeaning(before);
    ValidateTagMeaning(last);
    forall q | 0 <= q < |raw| && Trim(raw[q]) == all[j]
      ensures exists p :: 0 <= p < q && Trim(raw[p]) == all[i]
    {
      if j < |tags| {
        GatheredOrder(before, i, j);
        if q < |before| {
          assert before[q] == raw[q];
          var p :| 0 <= p < q && Trim(before[p]) == all[i];
          assert raw[p] == before[p];
        } else {
          Occurs(raw, before, tags, i);
        }
      } else {
        if q < |before| {
          ValidNonBlank(before, q);
          assert false;
        }
        Occurs(raw, before, tags, i);
      }
    }
  }

  lemma ValidNonBlank(raw: seq<string>, q: nat)
    requires Gathered(raw).Ok? && q < |raw| && Trim(raw[q]) != []
    ensures Trim(raw[q]) in Gathered(raw).value
  {
    GatheredMeaning(raw);
    assert Trim(raw[q]) in Named(raw);
  }

  lemma Occurs(raw: seq<string>, before: seq<string>, tags: seq<string>, i: nat)
    requires |raw| > 0 && before == raw[..|raw| - 1] && Gathered(before) == Ok(tags) && i < |tags|
    ensures exists p :: 0 <= p < |raw| - 1 && Trim(raw[p]) == tags[i]
  {
    GatheredMeaning(before);
    assert tags[i] in Elements(tags);
    var p :| 0 <= p < |before| && Trim(before[p]) == tags[i];
    assert raw[p] == before[p];
  }

  /** A list normalises exactly when every non-blank entry trims to a valid tag
      and at most fifty are distinct; the outcome lists each once, by first
      occurrence. */
  lemma NormalizedMeaning(raw: seq<string>)
    ensures Normalized(raw).Ok? <==> Acceptable(raw) && |Named(raw)| <= MAX_TAGS
    ensures Normalized(raw).Ok? ==>
              var tags := Normalized(raw).value;
              && NoDuplicates(tags) && |tags| <= MAX_TAGS
              && Elements(tags) == Named(raw)
              && (forall t | t in tags :: ValidTag(t))
              && (forall i, j | 0 <= i < j < |tags| :: Precedes(raw, tags[i], tags[j]))
  {
    GatheredMeaning(raw);
    if Gathered(raw).Ok? {
      var tags := Gathered(raw).value;
      NoDuplicatesCardinality(tags);
      forall t | t in tags ensures ValidTag(t) {
        assert t in Elements(tags);
      }
      forall i, j | 0 <= i < j < |tags| ensures Precedes(raw, tags[i], tags[j]) {
        GatheredOrder(raw, i, j);
      }
    }
  }

  ghost predicate IsNormal(tags: seq<string>) {
    NoDuplicates(tags) && |tags| <= MAX_TAGS && forall t | t in tags :: ValidTag(t)
  }

  lemma {:induction false} GatheredOfPadded(raw: seq<string>, tags: seq<string>)
    requires |raw| == |tags| && NoDuplicates(tags)
    requires forall i | 0 <= i < |tags| :: ValidTag(tags[i]) && (raw[i] == tags[i] || raw[i] == [' '] + tags[i])
    ensures Gathered(raw) == Ok(tags)
  {
    if tags != [] {
      var n := |tags| - 1;
      GatheredOfPadded(raw[..n], tags[..n]);
      ValidateTagMeaning(tags[n]);
      TrimFixed(tags[n]);
      assert tags[n] !in tags[..n];
      assert tags == tags[..n] + [tags[n]];
    }
  }

  /** Normalising a normalised list changes nothing. */
  lemma NormalizeIdempotent(raw: seq<string>)
    requires Normalized(raw).Ok?
    ensures IsNormal(Normalized(raw).value)
    ensures Normalized(Normalized(raw).value) == Normalized(raw)
  {
    NormalizedMeaning(raw);
    GatheredOfPadded(Normalized(raw).value, Normalized(raw).value);
  }

  function NormalizedCommaSeparated(input: string): Result<seq<string>, TagError> {
    Normalized(Split(input, ','))
  }

  method NormalizeCommaSeparated(input: string) returns (r: Result<seq<string>, TagError>)
    ensures r == NormalizedCommaSeparated(input)
  {
    r := NormalizeTags(Split(input, ','));
  }

  /** The value the tag edit form shows. */
  function FormText(tags: seq<string>): string {
    Join(tags, ", ")
  }

  lemma {:induction false} SplitFormText(tags: seq<string>)
    requires tags != [] && forall i | 0 <= i < |tags| :: ',' !in tags[i]
    ensures var parts := Split(FormText(tags), ',');
            && |parts| == |tags| && parts[0] == tags[0]
            && forall i | 1 <= i < |tags| :: parts[i] == [' '] + tags[i]
  {
    SplitFree(tags[0], ',');
    if |tags| > 1 {
      var rest := tags[1..];
      SplitFormText(rest);
      var tail := FormText(rest);
      assert FormText(tags) == tags[0] + [','] + ([' '] + tail);
      SplitAppend(tags[0], ',', [' '] + tail);
      assert ([' '] + tail)[1..] == tail;
      var inner := Split(tail, ',');
      assert Split([' '] + tail, ',') == [[' '] + inner[0]] + inner[1..];
    }
  }

  /** Submitting the edit form untouched keeps the tags, in their order. */
  lemma FormRoundTrip(tags: seq<string>)
    requires IsNormal(tags)
    ensures NormalizedCommaSeparated(FormText(tags)) == Ok(tags)
  {
    if tags == [] {
      assert Gathered([[]]) == Ok([]) by { assert [[]][..0] == Gathered([]).value; }
    } else {
      forall i | 0 <= i < |tags| ensures ',' !in tags[i] {
        assert ValidTag(tags[i]);
      }
      SplitFormText(tags);
      GatheredOfPadded(Split(FormText(tags), ','), tags);
    }
  }

  // ---- Labels ------------------------------------------------------------

  function Label(key: string, value: string): string {
    if value == [] then key else key + ":" + value
  }

  /** The labels of an event's tag map, listed in key order. */
  function LabelsFromEventTags(eventTags: seq<(string, string)>): (r: seq<string>)
    ensures |r| <= |eventTags|
  {
    if eventTags == [] then []
    else
      var rest := LabelsFromEventTags(eventTags[1..]);
      match ValidateTag(Label(eventTags[0].0, eventTags[0].1))
      case Ok(tag) => [tag] + rest
      case Err(_) => rest
  }

  /** The pair reads as this tag: its key, with the value behind a colon unless that
      is empty, trimmed and valid. */
  ghost predicate ReadsAs(pair: (string, string), tag: string) {
    ValidTag(tag) && tag == Trim(pair.0 + if pair.1 == [] then [] else [':'] + pair.1)
  }

  lemma LabelReads(pair: (string, string), tag: string)
    ensures ValidateTag(Label(pair.0, pair.1)) == Ok(tag) <==> ReadsAs(pair, tag)
  {
    ValidateTagMeaning(Label(pair.0, pair.1));
    assert Label(pair.0, pair.1) == pair.0 + if pair.1 == [] then [] else [':'] + pair.1;
  }

  /** Every label is a valid tag, and none that validates is left out. */
  lemma {:induction false} LabelsMeaning(eventTags: seq<(string, string)>, tag: string)
    ensures tag in LabelsFromEventTags(eventTags) <==> exists i :: 0 <= i < |eventTags| && ReadsAs(eventTags[i], tag)
  {
    if eventTags != [] {
      var head, tail := eventTags[0], eventTags[1..];
      LabelsMeaning(tail, tag);
      LabelReads(head, tag);
      assert forall i | 0 <= i < |tail| :: tail[i] == eventTags[i + 1];
      assert forall i | 1 <= i < |eventTags| :: eventTags[i] == tail[i - 1];
    }
  }

  /** Labels come in the order of the event's tags, each from one of them. */
  lemma {:induction false} LabelsInOrder(a: seq<(string, string)>, b: seq<(string, string)>)
    ensures LabelsFromEventTags(a + b) == LabelsFromEventTags(a) + LabelsFromEventTags(b)
    ensures |LabelsFromEventTags(a)| <= |a|
  {
    if a == [] {
      assert a + b == b;
    } else {
      assert (a + b)[1..] == a[1..] + b;
      LabelsInOrder(a[1..], b);
    }
  }

  /** Which rule a refused tag breaks first. */
  lemma ValidateTagErrors(raw: string)
    ensures ValidateTag(raw) == Err(Blank) <==> Trim(raw) == []
    ensures ValidateTag(raw) == Err(TooLong) <==> |Trim(raw)| > 64
    ensures ValidateTag(raw) == Err(BadCharacter) <==>
            0 < |Trim(raw)| <= 64 && exists c :: c in Trim(raw) && (c == ',' || IsWhitespace(c))
  {
    var tag := Trim(raw);
    if i :| 0 <= i < |tag| && (IsWhitespace(tag[i]) || tag[i] == ',') { assert tag[i] in tag; }
  }

  /** The first entry that is neither blank nor a valid tag. */
  ghost predicate FirstBad(raw: seq<string>, k: nat) {
    k < |raw| && Acceptable(raw[..k]) && Trim(raw[k]) != [] && ValidateTag(raw[k]).Err?
  }

  lemma FirstBadEarlier(raw: seq<string>, n: nat, k: nat)
    requires n <= |raw| && FirstBad(raw[..n], k)
    ensures FirstBad(raw, k) && raw[..n][k] == raw[k]
  {
    assert raw[..n][..k] == raw[..k];
  }

  lemma {:induction false} GatheredErrors(raw: seq<string>) returns (k: nat)
    requires !Acceptable(raw)
    ensures FirstBad(raw, k) && Gathered(raw) == Err(ValidateTag(raw[k]).error)
  {
    var n := |raw| - 1;
    GatheredMeaning(raw[..n]);
    if Acceptable(raw[..n]) {
      assert forall i | 0 <= i < n :: raw[..n][i] == raw[i];
      ValidateTagMeaning(raw[n]);
      k := n;
    } else {
      k := GatheredErrors(raw[..n]);
      FirstBadEarlier(raw, n, k);
    }
  }

  /** A refused list breaks a rule at its first bad entry, or else names more than
      fifty tags. */
  lemma NormalizeErrors(raw: seq<string>)
    requires Normalized(raw).Err?
    ensures if Acceptable(raw) then Normalized(raw) == Err(TooMany) && |Named(raw)| > 50
            else exists k: nat :: FirstBad(raw, k) && Normalized(raw) == Err(ValidateTag(raw[k]).error)
  {
    NormalizedMeaning(raw);
    GatheredMeaning(raw);
    if !Acceptable(raw) { var k := GatheredErrors(raw); }
  }
}
