/** The handful of Python string operations the application relies on:
    `str.strip()` (used only for its truthiness), case-insensitive matching
    (pandas compiles the pattern with `re.IGNORECASE`; here ASCII letters are
    lower-cased on both sides), literal substring search,
    `", ".join(...)` and `s.split(",")[0]`. */
module Text {

  /** Python's `str.isspace()`: the characters `str.strip()` removes when it
      is called without arguments. */
  predicate IsSpace(c: char) {
    || c == ' '
    || ('\t' <= c <= '\r')
    || ('\U{1C}' <= c <= '\U{1F}')
    || c == '\U{85}' || c == '\U{A0}' || c == '\U{1680}'
    || ('\U{2000}' <= c <= '\U{200A}')
    || c == '\U{2028}' || c == '\U{2029}' || c == '\U{202F}' || c == '\U{205F}' || c == '\U{3000}'
  }

  predicate AllSpace(s: string) {
    forall i :: 0 <= i < |s| ==> IsSpace(s[i])
  }

  /** `s.lstrip()` */
  function TrimStart(s: string): (r: string)
    ensures |r| <= |s| && r == s[|s| - |r|..]
    ensures AllSpace(s[..|s| - |r|])
    ensures r != [] ==> !IsSpace(r[0])
  {
    if |s| > 0 && IsSpace(s[0]) then
      var r := TrimStart(s[1..]);
      assert s[1..][..|s| - 1 - |r|] == s[1..|s| - |r|];
      r
    else s
  }

  /** `s.rstrip()` */
  function TrimEnd(s: string): (r: string)
    ensures |r| <= |s| && r == s[..|r|]
    ensures AllSpace(s[|r|..])
    ensures r != [] ==> !IsSpace(r[|r| - 1])
  {
    if |s| > 0 && IsSpace(s[|s| - 1]) then
      var init := s[..|s| - 1];
      var r := TrimEnd(init);
      assert s[|r|..] == init[|r|..] + [s[|s| - 1]];
      assert r == s[..|r|];
      r
    else s
  }

  /** Whitespace trimmed from the front and then from the back leaves a
      slice of `s` with only whitespace around it. */
  lemma {:induction false} TrimmedSlice(s: string, t: string, r: string)
    requires |t| <= |s| && t == s[|s| - |t|..] && AllSpace(s[..|s| - |t|])
    requires |r| <= |t| && r == t[..|r|] && AllSpace(t[|r|..])
    requires t != [] ==> !IsSpace(t[0])
    requires r != [] ==> !IsSpace(r[|r| - 1])
    ensures r != [] ==> !IsSpace(r[0]) && !IsSpace(r[|r| - 1])
    ensures exists a :: 0 <= a <= a + |r| <= |s| && r == s[a..a + |r|] && AllSpace(s[..a]) && AllSpace(s[a + |r|..])
  {
    var a := |s| - |t|;
    if r != [] { assert r[0] == t[0]; }
    assert s[a + |r|..] == t[|r|..];
    assert r == s[a..a + |r|];
  }

  /** `s.strip()`: whitespace removed from both ends, and only from there. */
  function Strip(s: string): (r: string)
    ensures r != [] ==> !IsSpace(r[0]) && !IsSpace(r[|r| - 1])
    ensures exists a :: 0 <= a <= a + |r| <= |s| && r == s[a..a + |r|] && AllSpace(s[..a]) && AllSpace(s[a + |r|..])
  {
    TrimmedSlice(s, TrimStart(s), TrimEnd(TrimStart(s)));
    TrimEnd(TrimStart(s))
  }

  /** A query box counts as empty in the application when `text.strip()` is falsy. */
  predicate IsBlank(s: string) {
    Strip(s) == []
  }

  /** Stripping leaves nothing exactly when every character is whitespace. */
  lemma BlankIffAllSpace(s: string)
    ensures IsBlank(s) <==> AllSpace(s)
  {
    var t := TrimStart(s);
    if IsBlank(s) {
      assert t == [] by { assert TrimEnd(t) == []; }
      assert s == s[..|s|];
    } else {
      var r := TrimEnd(t);
      assert r[0] == t[0] == s[|s| - |t|];
    }
  }

  /** ASCII lower-casing. */
  function LowerChar(c: char): char {
    if 'A' <= c <= 'Z' then (c as int - 'A' as int + 'a' as int) as char else c
  }

  function Lower(s: string): (r: string)
    ensures |r| == |s|
  {
    seq(|s|, i requires 0 <= i < |s| => LowerChar(s[i]))
  }

  lemma LowerSlice(s: string, i: int, j: int)
    requires 0 <= i <= j <= |s|
    ensures Lower(s)[i..j] == Lower(s[i..j])
  {
  }

  /** `needle` occurs in `hay` starting at index `i`. */
  predicate OccursAt(hay: string, needle: string, i: int) {
    0 <= i && i + |needle| <= |hay| && hay[i..i + |needle|] == needle
  }

  /** Literal substring search (`needle in hay`). */
  function Contains(hay: string, needle: string): bool
    decreases |hay|
  {
    if |needle| > |hay| then false
    else if hay[..|needle|] == needle then true
    else Contains(hay[1..], needle)
  }

  lemma {:induction false} ContainsIffOccurs(hay: string, needle: string)
    ensures Contains(hay, needle) <==> exists i :: OccursAt(hay, needle, i)
    decreases |hay|
  {
    if |needle| > |hay| {
    } else if hay[..|needle|] == needle {
      assert OccursAt(hay, needle, 0);
    } else {
      ContainsIffOccurs(hay[1..], needle);
      if i :| OccursAt(hay[1..], needle, i) {
        assert hay[1..][i..i + |needle|] == hay[i + 1..i + 1 + |needle|];
        assert OccursAt(hay, needle, i + 1);
      }
      if i :| OccursAt(hay, needle, i) {
        assert i != 0;
        assert hay[1..][i - 1..i - 1 + |needle|] == hay[i..i + |needle|];
        assert OccursAt(hay[1..], needle, i - 1);
      }
    }
  }

  /** pandas' `str.contains(needle, case=False)` read as a literal,
      case-insensitive substring test. */
  predicate ContainsIgnoreCase(hay: string, needle: string) {
    Contains(Lower(hay), Lower(needle))
  }

  /** The empty key matches every string. */
  lemma {:induction false} EmptyKeyMatches(hay: string)
    ensures ContainsIgnoreCase(hay, "")
  {
    ContainsIffOccurs(Lower(hay), Lower(""));
    assert OccursAt(Lower(hay), Lower(""), 0);
  }

  /** An occurrence survives lower-casing both sides. */
  lemma {:induction false} OccursIgnoreCase(hay: string, needle: string, i: int)
    requires OccursAt(hay, needle, i)
    ensures ContainsIgnoreCase(hay, needle)
  {
    LowerSlice(hay, i, i + |needle|);
    assert OccursAt(Lower(hay), Lower(needle), i);
    ContainsIffOccurs(Lower(hay), Lower(needle));
  }

  /** `sep.join(parts)` */
  function Join(parts: seq<string>, sep: string): string {
    if |parts| == 0 then ""
    else if |parts| == 1 then parts[0]
    else parts[0] + sep + Join(parts[1..], sep)
  }

  /** Every part of a joined string can be found in it: the partner of the
      fallback search over ingredient strings. */
  lemma {:induction false} JoinContainsPart(parts: seq<string>, sep: string, k: int)
    requires 0 <= k < |parts|
    ensures exists i :: OccursAt(Join(parts, sep), parts[k], i)
  {
    if |parts| == 1 {
      assert OccursAt(Join(parts, sep), parts[k], 0);
    } else if k == 0 {
      assert Join(parts, sep)[..|parts[0]|] == parts[0];
      assert OccursAt(Join(parts, sep), parts[k], 0);
    } else {
      JoinContainsPart(parts[1..], sep, k - 1);
      var i :| OccursAt(Join(parts[1..], sep), parts[1..][k - 1], i);
      var head := parts[0] + sep;
      assert Join(parts, sep) == head + Join(parts[1..], sep);
      assert Join(parts, sep)[|head| + i..|head| + i + |parts[k]|]
          == Join(parts[1..], sep)[i..i + |parts[k]|];
      assert OccursAt(Join(parts, sep), parts[k], |head| + i);
    }
  }

  /** `s.split(sep)[0]`: everything before the first `sep`, or all of `s`. */
  function BeforeFirst(s: string, sep: char): (r: string)
    ensures |r| <= |s| && r == s[..|r|]
    ensures sep !in r
    ensures |r| < |s| ==> s[|r|] == sep
  {
    if |s| == 0 || s[0] == sep then ""
    else [s[0]] + BeforeFirst(s[1..], sep)
  }

  /** Text up to the first `sep` of `a + b` is `a` when `a` holds no `sep`
      and `b` is empty or starts with one. */
  lemma {:induction false} BeforeFirstOfPrefix(a: string, b: string, sep: char)
    requires sep !in a
    requires b == [] || b[0] == sep
    ensures BeforeFirst(a + b, sep) == a
  {
    if a != [] {
      assert (a + b)[1..] == a[1..] + b;
      BeforeFirstOfPrefix(a[1..], b, sep);
    }
  }

  /** Splitting a joined list at its first comma gives back the first part,
      provided that part holds no comma and the separator starts with one. */
  lemma {:induction false} BeforeFirstOfJoin(parts: seq<string>, sep: string)
    requires |parts| > 0 && ',' !in parts[0]
    requires |sep| > 0 && sep[0] == ','
    ensures BeforeFirst(Join(parts, sep), ',') == parts[0]
  {
    if |parts| == 1 {
      BeforeFirstOfPrefix(parts[0], "", ',');
      assert parts[0] + "" == parts[0];
    } else {
      assert Join(parts, sep) == parts[0] + (sep + Join(parts[1..], sep));
      BeforeFirstOfPrefix(parts[0], sep + Join(parts[1..], sep), ',');
    }
  }
}
