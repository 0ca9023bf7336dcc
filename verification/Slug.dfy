/** Project slugs (src/handlers.rs): the generator's single bounded pass against
    a closed form, "the words of the name joined by hyphens, cut to fit". */
module Slug {
  import opened Text

  const SLUG_MAX_LEN := 50

  predicate IsAlphanumeric(c: char) {
    'a' <= c <= 'z' || 'A' <= c <= 'Z' || '0' <= c <= '9'
  }

  function Lower(c: char): char {
    if 'A' <= c <= 'Z' then c - 'A' + 'a' else c
  }

  predicate IsSlugChar(c: char) {
    'a' <= c <= 'z' || '0' <= c <= '9' || c == '-'
  }

  /** `validate_slug` accepts. */
  predicate ValidSlug(slug: string) {
    && 2 <= |slug| <= SLUG_MAX_LEN
    && (forall i | 0 <= i < |slug| :: IsSlugChar(slug[i]))
    && slug[0] != '-' && slug[|slug| - 1] != '-'
  }

  /** The maximal alphanumeric runs of a name, lowercased. */
  function Words(v: string): (r: seq<string>)
    ensures forall i | 0 <= i < |r| :: r[i] != []
  {
    if v == [] then []
    else
      var before, c := v[..|v| - 1], v[|v| - 1];
      var words := Words(before);
      if !IsAlphanumeric(c) then words
      else if EndsWord(before) && words != [] then
        words[..|words| - 1] + [words[|words| - 1] + [Lower(c)]]
      else words + [[Lower(c)]]
  }

  predicate EndsWord(v: string) {
    v != [] && IsAlphanumeric(v[|v| - 1])
  }

  function Hyphenated(v: string): string {
    Join(Words(v), "-")
  }

  /** Cut to the limit; a hyphen that would land on the last place gives it up
      to the letter behind it. */
  function Bounded(full: string): string {
    if |full| <= SLUG_MAX_LEN then full
    else if full[SLUG_MAX_LEN - 1] == '-' then full[..SLUG_MAX_LEN - 1] + [full[SLUG_MAX_LEN]]
    else full[..SLUG_MAX_LEN]
  }

  function SlugOf(value: string): string {
    Bounded(Hyphenated(value))
  }

  lemma {:induction false} JoinSnoc(ws: seq<string>, w: string, sep: string)
    requires ws != []
    ensures Join(ws + [w], sep) == Join(ws, sep) + sep + w
  {
    if |ws| == 1 {
      assert (ws + [w])[1..] == [w];
    } else {
      JoinSnoc(ws[1..], w, sep);
      assert (ws + [w])[1..] == ws[1..] + [w];
      var mid := Join(ws[1..], sep);
      assert ws[0] + sep + (mid + sep + w) == (ws[0] + sep + mid) + sep + w;
    }
  }

  lemma JoinGrowLast(ws: seq<string>, c: char, sep: string)
    requires ws != []
    ensures Join(ws[..|ws| - 1] + [ws[|ws| - 1] + [c]], sep) == Join(ws, sep) + [c]
  {
    var init, last := ws[..|ws| - 1], ws[|ws| - 1];
    assert ws == init + [last];
    if init != [] {
      JoinSnoc(init, last, sep);
      JoinSnoc(init, last + [c], sep);
      assert Join(init, sep) + sep + (last + [c]) == Join(init, sep) + sep + last + [c];
    }
  }

  /** One more character of the name, the way the generator meets it. */
  lemma HyphenatedStep(v: string, c: char)
    ensures !IsAlphanumeric(c) ==> Hyphenated(v + [c]) == Hyphenated(v)
    ensures IsAlphanumeric(c) && (EndsWord(v) || Hyphenated(v) == []) ==>
              Hyphenated(v + [c]) == Hyphenated(v) + [Lower(c)]
    ensures IsAlphanumeric(c) && !EndsWord(v) && Hyphenated(v) != [] ==>
              Hyphenated(v + [c]) == Hyphenated(v) + "-" + [Lower(c)]
    ensures EndsWord(v) ==> Hyphenated(v) != []
    ensures Words(v) == [] <==> Hyphenated(v) == []
  {
    assert (v + [c])[..|v|] == v;
    var words := Words(v);
    if words != [] {
      JoinGrowLast(words, Lower(c), "-");
      JoinSnoc(words, [Lower(c)], "-");
    }
    assert EndsWord(v) ==> words != [];
  }

  lemma {:induction false} HyphenatedGrows(v: string, i: nat)
    requires i <= |v|
    ensures Hyphenated(v[..i]) <= Hyphenated(v)
  {
    if i < |v| {
      var before := v[..|v| - 1];
      assert v == before + [v[|v| - 1]] && before[..i] == v[..i];
      HyphenatedGrows(before, i);
      HyphenatedStep(before, v[|v| - 1]);
    } else {
      assert v[..i] == v;
    }
  }

  ghost predicate NoDoubledHyphen(s: string) {
    forall i | 0 <= i < |s| - 1 :: s[i] != '-' || s[i + 1] != '-'
  }

  ghost predicate Tidy(s: string) {
    && (forall i | 0 <= i < |s| :: IsSlugChar(s[i]))
    && NoDoubledHyphen(s)
    && (s != [] ==> s[0] != '-' && s[|s| - 1] != '-')
  }

  lemma {:induction false} HyphenatedTidy(v: string)
    ensures Tidy(Hyphenated(v))
  {
    if v != [] {
      var before, c := v[..|v| - 1], v[|v| - 1];
      assert v == before + [c];
      HyphenatedTidy(before);
      HyphenatedStep(before, c);
      assert IsAlphanumeric(c) ==> IsSlugChar(Lower(c)) && Lower(c) != '-';
    }
  }

  /** A letter or digit arriving while there is room. */
  lemma SlugOfStep(v: string, c: char)
    requires IsAlphanumeric(c) && |SlugOf(v)| < SLUG_MAX_LEN
    ensures var slug := SlugOf(v);
            var hyphen := if !EndsWord(v) && slug != [] && |slug| + 2 <= SLUG_MAX_LEN then "-" else "";
            SlugOf(v + [c]) == slug + hyphen + [Lower(c)]
  {
    HyphenatedTidy(v);
    HyphenatedStep(v, c);
    var h := Hyphenated(v);
    assert SlugOf(v) == h;
    assert h + "" + [Lower(c)] == h + [Lower(c)];
    if |h| == SLUG_MAX_LEN - 1 && !EndsWord(v) {
      var full := h + "-" + [Lower(c)];
      assert full[SLUG_MAX_LEN - 1] == '-' && full[..SLUG_MAX_LEN - 1] == h;
    }
  }

  /** Once the limit is reached nothing behind matters. */
  lemma SlugOfFull(v: string, i: nat)
    requires i <= |v| && |SlugOf(v[..i])| == SLUG_MAX_LEN
    ensures SlugOf(v) == SlugOf(v[..i])
  {
    HyphenatedGrows(v, i);
    HyphenatedTidy(v[..i]);
  }

  /** The generator, character by character. */
  method Slugify(value: string) returns (slug: string)
    ensures slug == SlugOf(value)
  {
    slug := [];
    var pendingSeparator := false;
    var i := 0;
    assert value[..0] == [];
    while i < |value|
      invariant 0 <= i <= |value|
      invariant slug == SlugOf(value[..i])
      invariant pendingSeparator <==> i > 0 && !EndsWord(value[..i])
    {
      var character := value[i];
      assert value[..i + 1] == value[..i] + [character];
      if !IsAlphanumeric(character) {
        HyphenatedStep(value[..i], character);
        pendingSeparator := true;
        i := i + 1;
        continue;
      }
      if |slug| + 1 > SLUG_MAX_LEN {
        SlugOfFull(value, i);
        return;
      }
      SlugOfStep(value[..i], character);
      if pendingSeparator && slug != [] && |slug| + 2 <= SLUG_MAX_LEN {
        slug := slug + ['-'];
      }
      pendingSeparator := false;
      slug := slug + [Lower(character)];
      i := i + 1;
    }
    assert value[..i] == value;
  }

  // ---- What slugs look like ----------------------------------------------

  function WithoutHyphens(s: string): string {
    if s == [] then []
    else WithoutHyphens(s[..|s| - 1]) + (if s[|s| - 1] == '-' then [] else [s[|s| - 1]])
  }

  function LoweredAlphanumerics(v: string): string {
    if v == [] then []
    else
      var c := v[|v| - 1];
      LoweredAlphanumerics(v[..|v| - 1]) + (if IsAlphanumeric(c) then [Lower(c)] else [])
  }

  lemma WithoutHyphensSnoc(s: string, c: char)
    ensures WithoutHyphens(s + [c]) == WithoutHyphens(s) + (if c == '-' then [] else [c])
  {
  }

  lemma {:induction false} HyphenatedContent(v: string)
    ensures WithoutHyphens(Hyphenated(v)) == LoweredAlphanumerics(v)
  {
    if v != [] {
      var before, c := v[..|v| - 1], v[|v| - 1];
      assert v == before + [c];
      HyphenatedContent(before);
      HyphenatedStep(before, c);
      var h := Hyphenated(before);
      WithoutHyphensSnoc(h, '-');
      WithoutHyphensSnoc(h, Lower(c));
      WithoutHyphensSnoc(h + "-", Lower(c));
    }
  }

  lemma {:induction false} WithoutHyphensPrefix(s: string, i: nat)
    requires i <= |s|
    ensures WithoutHyphens(s[..i]) <= WithoutHyphens(s)
  {
    if i < |s| {
      assert s[..|s| - 1][..i] == s[..i];
      WithoutHyphensPrefix(s[..|s| - 1], i);
    } else {
      assert s[..i] == s;
    }
  }

  /** Length, alphabet, hyphen placement, and acceptance by the validator. */
  lemma SlugShape(value: string)
    ensures |SlugOf(value)| <= SLUG_MAX_LEN
    ensures Tidy(SlugOf(value))
    ensures ValidSlug(SlugOf(value)) <==> |SlugOf(value)| >= 2
  {
    HyphenatedTidy(value);
  }

  /** The letters and digits survive in order; none is lost unless the slug is
      at the length limit. */
  lemma SlugContent(value: string)
    ensures WithoutHyphens(SlugOf(value)) <= LoweredAlphanumerics(value)
    ensures |SlugOf(value)| < SLUG_MAX_LEN ==> WithoutHyphens(SlugOf(value)) == LoweredAlphanumerics(value)
  {
    var full := Hyphenated(value);
    HyphenatedContent(value);
    HyphenatedTidy(value);
    if |full| > SLUG_MAX_LEN {
      if full[SLUG_MAX_LEN - 1] == '-' {
        var head := full[..SLUG_MAX_LEN - 1];
        WithoutHyphensSnoc(head, '-');
        WithoutHyphensSnoc(head, full[SLUG_MAX_LEN]);
        WithoutHyphensSnoc(head + "-", full[SLUG_MAX_LEN]);
        assert full[..SLUG_MAX_LEN + 1] == head + "-" + [full[SLUG_MAX_LEN]];
        WithoutHyphensPrefix(full, SLUG_MAX_LEN + 1);
      } else {
        WithoutHyphensPrefix(full, SLUG_MAX_LEN);
      }
    }
  }

  lemma {:induction false} HyphenatedOfTidyPrefix(s: string)
    requires forall i | 0 <= i < |s| :: IsSlugChar(s[i])
    requires NoDoubledHyphen(s) && (s != [] ==> s[0] != '-')
    ensures Hyphenated(s) == if s != [] && s[|s| - 1] == '-' then s[..|s| - 1] else s
  {
    if s != [] {
      var before, c := s[..|s| - 1], s[|s| - 1];
      assert s == before + [c];
      assert NoDoubledHyphen(before) by {
        forall i | 0 <= i < |before| - 1 ensures before[i] != '-' || before[i + 1] != '-' {
          assert before[i] == s[i] && before[i + 1] == s[i + 1];
        }
      }
      HyphenatedOfTidyPrefix(before);
      HyphenatedStep(before, c);
      if c == '-' {
        assert before[|before| - 1] == s[|s| - 2] != '-';
      } else {
        assert Lower(c) == c && IsAlphanumeric(c);
        if before != [] && before[|before| - 1] == '-' {
          assert s == before[..|before| - 1] + "-" + [c];
        }
      }
    }
  }

  /** Slugs are fixed points of the generator. */
  lemma SlugIdempotent(value: string)
    ensures SlugOf(SlugOf(value)) == SlugOf(value)
  {
    SlugShape(value);
    HyphenatedOfTidyPrefix(SlugOf(value));
  }

  // ---- The documented collapse -------------------------------------------

  /** Separator runs collapse to single hyphens, as documented: the slug is the
      hyphenated name, cut. It is not exactly when a hyphen would take the last
      place; the two words are then joined. */
  lemma CollapseExactly(value: string)
    ensures SlugOf(value) <= Hyphenated(value)
            <==> !(|Hyphenated(value)| > SLUG_MAX_LEN && Hyphenated(value)[SLUG_MAX_LEN - 1] == '-')
  {
    HyphenatedTidy(value);
    var full := Hyphenated(value);
    if |full| > SLUG_MAX_LEN && full[SLUG_MAX_LEN - 1] == '-' {
      assert full[SLUG_MAX_LEN] != '-' && SlugOf(value)[SLUG_MAX_LEN - 1] == full[SLUG_MAX_LEN];
    }
  }

  function Letters(n: nat): string {
    seq(n, _ => 'a')
  }

  /** Forty-nine letters, a space and a letter: the hyphen is gone. */
  lemma HyphenDropped()
    ensures Hyphenated(Letters(49) + [' '] + ['b']) == Letters(49) + "-" + ['b']
    ensures SlugOf(Letters(49) + [' '] + ['b']) == Letters(49) + ['b']
  {
    var v := Letters(49);
    HyphenatedOfTidyPrefix(v);
    assert Hyphenated(v) == v && v != [];
    HyphenatedStep(v, ' ');
    assert !EndsWord(v + [' ']);
    HyphenatedStep(v + [' '], 'b');
    var full := v + "-" + ['b'];
    assert full[..SLUG_MAX_LEN - 1] == v && full[SLUG_MAX_LEN - 1] == '-' && full[SLUG_MAX_LEN] == 'b';
  }
}
