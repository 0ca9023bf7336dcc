/** String facts shared by the machines: the byte order that file names and
    SQL `ORDER BY` use, trimming, and the pair Split/Join. */
module Text {

  datatype Option<+T> = None | Some(value: T)

  datatype Result<+T, +E> = Ok(value: T) | Err(error: E)

  predicate NoDuplicates<T(==)>(s: seq<T>) {
    forall i, j | 0 <= i < j < |s| :: s[i] != s[j]
  }

  ghost function Elements<T>(s: seq<T>): set<T> {
    set x | x in s
  }

  lemma ElementsOfAppend<T>(s: seq<T>, x: T)
    ensures Elements(s + [x]) == Elements(s) + {x}
  {
  }

  lemma {:induction false} NoDuplicatesCardinality<T>(s: seq<T>)
    requires NoDuplicates(s)
    ensures |Elements(s)| == |s|
  {
    if s == [] {
    } else {
      var init, last := s[..|s| - 1], s[|s| - 1];
      assert s == init + [last];
      NoDuplicatesCardinality(init);
      ElementsOfAppend(init, last);
      assert last !in Elements(init);
    }
  }

  // ---- Order -------------------------------------------------------------

  /** Strict lexicographic order; on code points it agrees with the byte order
      of the UTF-8 encodings. */
  predicate Less(a: string, b: string) {
    b != [] && (a == [] || a[0] < b[0] || (a[0] == b[0] && Less(a[1..], b[1..])))
  }

  lemma {:induction false} LessIrreflexive(a: string)
    ensures !Less(a, a)
  {
    if a != [] { LessIrreflexive(a[1..]); }
  }

  lemma {:induction false} LessTransitive(a: string, b: string, c: string)
    requires Less(a, b) && Less(b, c)
    ensures Less(a, c)
  {
    if a != [] && a[0] == b[0] == c[0] { LessTransitive(a[1..], b[1..], c[1..]); }
  }

  lemma {:induction false} LessTotal(a: string, b: string)
    ensures Less(a, b) || a == b || Less(b, a)
  {
    if a != [] && b != [] && a[0] == b[0] {
      LessTotal(a[1..], b[1..]);
      assert a == [a[0]] + a[1..] && b == [b[0]] + b[1..];
    }
  }

  /** What two strings with a common prefix of equal length compare by. */
  lemma {:induction false} LessAfterPrefix(p: string, q: string, a: string, b: string)
    requires |p| == |q|
    ensures Less(p + a, q + b) <==> Less(p, q) || (p == q && Less(a, b))
  {
    if p == [] {
      assert p + a == a && q + b == b;
    } else {
      assert (p + a)[1..] == p[1..] + a && (q + b)[1..] == q[1..] + b;
      LessAfterPrefix(p[1..], q[1..], a, b);
      assert p == [p[0]] + p[1..] && q == [q[0]] + q[1..];
      if p == q { LessIrreflexive(p); }
    }
  }

  ghost predicate StrictlySorted(s: seq<string>) {
    forall i, j | 0 <= i < j < |s| :: Less(s[i], s[j])
  }

  lemma StrictlySortedNoDuplicates(s: seq<string>)
    requires StrictlySorted(s)
    ensures NoDuplicates(s)
  {
    forall i, j | 0 <= i < j < |s| ensures s[i] != s[j] { LessIrreflexive(s[i]); }
  }

  /** A strictly sorted listing is determined by the set it lists. */
  lemma {:induction false} StrictlySortedUnique(a: seq<string>, b: seq<string>)
    requires StrictlySorted(a) && StrictlySorted(b) && Elements(a) == Elements(b)
    ensures a == b
  {
    assert a != [] ==> a[0] in Elements(b);
    assert b != [] ==> b[0] in Elements(a);
    if a != [] && b != [] {
      if a[0] != b[0] {
        assert Less(a[0], b[0]) && Less(b[0], a[0]);
        LessTransitive(a[0], b[0], a[0]);
        LessIrreflexive(a[0]);
        assert false;
      }
      StrictlySortedNoDuplicates(a);
      StrictlySortedNoDuplicates(b);
      assert a == [a[0]] + a[1..] && b == [b[0]] + b[1..];
      assert Elements(a[1..]) == Elements(a) - {a[0]};
      assert Elements(b[1..]) == Elements(b) - {b[0]};
      StrictlySortedUnique(a[1..], b[1..]);
    }
  }

  /** Insertion before the first larger element. */
  function Insert(s: seq<string>, t: string): (r: seq<string>)
    ensures |r| == |s| + 1
  {
    if s == [] || Less(t, s[0]) then [t] + s else [s[0]] + Insert(s[1..], t)
  }

  lemma {:induction false} InsertElements(s: seq<string>, t: string)
    ensures Elements(Insert(s, t)) == Elements(s) + {t}
  {
    if s == [] || Less(t, s[0]) {
      assert forall y :: y in [t] + s <==> y == t || y in s;
    } else {
      InsertElements(s[1..], t);
      assert s == [s[0]] + s[1..];
      assert forall y :: y in Insert(s, t) <==> y == s[0] || y in Insert(s[1..], t);
      assert forall y :: y in Insert(s[1..], t) <==> y in Elements(Insert(s[1..], t));
      assert forall y :: y in s <==> y == s[0] || y in s[1..];
    }
  }

  lemma {:induction false} InsertStrictlySorted(s: seq<string>, t: string)
    requires StrictlySorted(s) && t !in s
    ensures StrictlySorted(Insert(s, t))
  {
    if s == [] {
    } else if Less(t, s[0]) {
      forall j | 0 <= j < |s| ensures Less(t, s[j]) {
        if j > 0 { LessTransitive(t, s[0], s[j]); }
      }
    } else {
      LessTotal(t, s[0]);
      InsertStrictlySorted(s[1..], t);
      InsertElements(s[1..], t);
      var r := Insert(s[1..], t);
      forall j | 0 <= j < |r| ensures Less(s[0], r[j]) {
        assert r[j] in Elements(r);
        if r[j] != t { assert r[j] in s[1..]; }
      }
    }
  }

  /** A Rust `sort` of strings. */
  function Sort(s: seq<string>): (r: seq<string>)
    ensures |r| == |s|
  {
    if s == [] then [] else Insert(Sort(s[..|s| - 1]), s[|s| - 1])
  }

  lemma {:induction false} SortOfDistinct(s: seq<string>)
    requires NoDuplicates(s)
    ensures StrictlySorted(Sort(s)) && Elements(Sort(s)) == Elements(s)
  {
    if s != [] {
      var init, last := s[..|s| - 1], s[|s| - 1];
      assert s == init + [last];
      SortOfDistinct(init);
      assert last !in Elements(Sort(init));
      InsertStrictlySorted(Sort(init), last);
      InsertElements(Sort(init), last);
      ElementsOfAppend(init, last);
    }
  }

  predicate IsLeast(s: set<string>, x: string) {
    x in s && forall y | y in s :: y == x || Less(x, y)
  }

  lemma {:induction false} LeastExists(s: set<string>) returns (least: string)
    requires s != {}
    ensures IsLeast(s, least)
  {
    var x :| x in s;
    if s == {x} {
      least := x;
    } else {
      var m := LeastExists(s - {x});
      LessTotal(x, m);
      least := if Less(x, m) then x else m;
      forall y | y in s ensures y == least || Less(least, y) {
        if y != x && Less(x, m) && y != m { LessTransitive(x, m, y); }
      }
    }
  }

  lemma LeastUnique(s: set<string>)
    ensures forall a, b | IsLeast(s, a) && IsLeast(s, b) :: a == b
  {
    forall a, b | IsLeast(s, a) && IsLeast(s, b) ensures a == b {
      if a != b {
        LessTransitive(a, b, a);
        LessIrreflexive(a);
      }
    }
  }

  lemma ConsListing(s: set<string>, x: string, rest: seq<string>)
    requires IsLeast(s, x) && StrictlySorted(rest) && Elements(rest) == s - {x}
    ensures StrictlySorted([x] + rest) && Elements([x] + rest) == s
  {
    assert forall y :: y in [x] + rest <==> y == x || y in rest;
    assert forall y :: y in rest <==> y in Elements(rest);
    forall j | 0 <= j < |rest| ensures Less(x, rest[j]) {
      assert rest[j] in s - {x};
    }
  }

  /** `SELECT ... ORDER BY`: the ascending listing of a set of texts. */
  function SortedOf(s: set<string>): (r: seq<string>)
    ensures StrictlySorted(r) && Elements(r) == s
  {
    if s == {} then [] else
      assert exists x :: x in s && IsLeast(s, x) by { var x := LeastExists(s); }
      LeastUnique(s);
      var x :| x in s && IsLeast(s, x);
      var rest := SortedOf(s - {x});
      ConsListing(s, x, rest);
      [x] + rest
  }

  /** Comparing a sorted duplicate-free list with a stored set's listing
      compares the two as sets. */
  lemma SortedComparison(tags: seq<string>, stored: set<string>)
    requires NoDuplicates(tags)
    ensures Sort(tags) == SortedOf(stored) <==> Elements(tags) == stored
  {
    SortOfDistinct(tags);
    if Elements(tags) == stored { StrictlySortedUnique(Sort(tags), SortedOf(stored)); }
  }

  // ---- Whitespace --------------------------------------------------------

  /** The Unicode White_Space property, which `char::is_whitespace` and
      `str::trim` share. */
  predicate IsWhitespace(c: char) {
    || '\U{0009}' <= c <= '\U{000D}' || c == ' ' || c == '\U{0085}' || c == '\U{00A0}'
    || c == '\U{1680}' || '\U{2000}' <= c <= '\U{200A}' || c == '\U{2028}' || c == '\U{2029}'
    || c == '\U{202F}' || c == '\U{205F}' || c == '\U{3000}'
  }

  predicate NoWhitespace(s: string) {
    forall i | 0 <= i < |s| :: !IsWhitespace(s[i])
  }

  function TrimStart(s: string): string {
    if s != [] && IsWhitespace(s[0]) then TrimStart(s[1..]) else s
  }

  function TrimEnd(s: string): string {
    if s != [] && IsWhitespace(s[|s| - 1]) then TrimEnd(s[..|s| - 1]) else s
  }

  function Trim(s: string): string {
    TrimEnd(TrimStart(s))
  }

  lemma TrimFixed(t: string)
    requires NoWhitespace(t)
    ensures Trim(t) == t && Trim([' '] + t) == t
  {
  }

  lemma {:induction false} TrimStartBlank(s: string)
    ensures if forall i | 0 <= i < |s| :: IsWhitespace(s[i]) then TrimStart(s) == []
            else TrimStart(s) != [] && !IsWhitespace(TrimStart(s)[0])
  {
    if s != [] && IsWhitespace(s[0]) {
      TrimStartBlank(s[1..]);
      assert forall i | 1 <= i < |s| :: s[i] == s[1..][i - 1];
    }
  }

  lemma {:induction false} TrimEndKeepsHead(s: string)
    requires s != [] && !IsWhitespace(s[0])
    ensures TrimEnd(s) != []
  {
    if IsWhitespace(s[|s| - 1]) { TrimEndKeepsHead(s[..|s| - 1]); }
  }

  /** Only blank texts trim to nothing. */
  lemma TrimBlank(s: string)
    ensures Trim(s) == [] <==> forall i | 0 <= i < |s| :: IsWhitespace(s[i])
  {
    TrimStartBlank(s);
    if TrimStart(s) != [] { TrimEndKeepsHead(TrimStart(s)); }
  }

  predicate Blank(s: string) {
    forall i | 0 <= i < |s| :: IsWhitespace(s[i])
  }

  /** `t` is `s` without the blanks around it. */
  ghost predicate IsTrimmed(s: string, t: string) {
    && (exists pre, post :: s == pre + t + post && Blank(pre) && Blank(post))
    && (t != [] ==> !IsWhitespace(t[0]) && !IsWhitespace(t[|t| - 1]))
  }

  lemma {:induction false} TrimStartOf(pre: string, t: string)
    requires Blank(pre) && (t != [] ==> !IsWhitespace(t[0]))
    ensures TrimStart(pre + t) == t
  {
    if pre == [] {
      assert pre + t == t;
    } else {
      assert (pre + t)[0] == pre[0] && (pre + t)[1..] == pre[1..] + t;
      TrimStartOf(pre[1..], t);
    }
  }

  lemma {:induction false} TrimEndOf(t: string, post: string)
    requires Blank(post) && (t != [] ==> !IsWhitespace(t[|t| - 1]))
    ensures TrimEnd(t + post) == t
  {
    if post == [] {
      assert t + post == t;
    } else {
      var s := t + post;
      assert s[|s| - 1] == post[|post| - 1] && s[..|s| - 1] == t + post[..|post| - 1];
      TrimEndOf(t, post[..|post| - 1]);
    }
  }

  lemma {:induction false} TrimStartSplits(s: string) returns (pre: string)
    ensures s == pre + TrimStart(s) && Blank(pre)
    ensures TrimStart(s) != [] ==> !IsWhitespace(TrimStart(s)[0])
  {
    if s != [] && IsWhitespace(s[0]) {
      var rest := TrimStartSplits(s[1..]);
      pre := [s[0]] + rest;
      assert s == [s[0]] + s[1..];
    } else {
      pre := [];
    }
  }

  lemma {:induction false} TrimEndSplits(s: string) returns (post: string)
    ensures s == TrimEnd(s) + post && Blank(post)
    ensures TrimEnd(s) != [] ==> !IsWhitespace(TrimEnd(s)[|TrimEnd(s)| - 1])
  {
    if s != [] && IsWhitespace(s[|s| - 1]) {
      var rest := TrimEndSplits(s[..|s| - 1]);
      post := rest + [s[|s| - 1]];
      assert s == s[..|s| - 1] + [s[|s| - 1]];
    } else {
      post := [];
    }
  }

  lemma TrimIsTrimmed(s: string)
    ensures IsTrimmed(s, Trim(s))
  {
    var pre := TrimStartSplits(s);
    var body := TrimStart(s);
    var post := TrimEndSplits(body);
    assert s == pre + Trim(s) + post;
    assert Trim(s) != [] ==> Trim(s)[0] == body[0];
  }

  /** Trimming removes exactly the blanks at both ends. */
  lemma TrimExactly(s: string, t: string)
    ensures Trim(s) == t <==> IsTrimmed(s, t)
  {
    TrimIsTrimmed(s);
    if IsTrimmed(s, t) {
      var pre, post :| s == pre + t + post && Blank(pre) && Blank(post);
      if t == [] {
        TrimBlank(s);
      } else {
        assert s == pre + (t + post);
        TrimStartOf(pre, t + post);
        TrimEndOf(t, post);
      }
    }
  }

  // ---- Split and join ----------------------------------------------------

  function Join(parts: seq<string>, sep: string): string {
    if parts == [] then []
    else if |parts| == 1 then parts[0]
    else parts[0] + sep + Join(parts[1..], sep)
  }

  /** `str::split` on one character: one more part than separators. */
  function Split(s: string, c: char): (r: seq<string>)
    ensures |r| >= 1
  {
    if s == [] then [[]]
    else
      var r := Split(s[1..], c);
      if s[0] == c then [[]] + r else [[s[0]] + r[0]] + r[1..]
  }

  lemma {:induction false} SplitAppend(a: string, c: char, b: string)
    ensures Split(a + [c] + b, c) == Split(a, c) + Split(b, c)
  {
    var s := a + [c] + b;
    if a == [] {
      assert s[0] == c && s[1..] == b;
    } else {
      assert s[0] == a[0] && s[1..] == a[1..] + [c] + b;
      SplitAppend(a[1..], c, b);
    }
  }

  lemma {:induction false} SplitFree(a: string, c: char)
    requires c !in a
    ensures Split(a, c) == [a]
  {
    if a != [] {
      SplitFree(a[1..], c);
      assert [a[0]] + a[1..] == a;
    }
  }

  lemma JoinHead(c: char, r: seq<string>, sep: string)
    requires r != []
    ensures Join([[c] + r[0]] + r[1..], sep) == [c] + Join(r, sep)
  {
  }

  lemma {:induction false} JoinSplit(s: string, c: char)
    ensures Join(Split(s, c), [c]) == s
  {
    if s != [] {
      JoinSplit(s[1..], c);
      var r := Split(s[1..], c);
      assert s == [s[0]] + s[1..];
      if s[0] == c {
        assert ([[]] + r)[1..] == r;
      } else {
        JoinHead(s[0], r, [c]);
      }
    }
  }
}
