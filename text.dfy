/** The parts of Python's `str` that the restorer and the service rely on:
    character case, `isspace`, `strip`, `split`, `join` and
    `replace(' ', '')`. Strings are sequences of Unicode scalar values. */
module Text {

  // ---------------------------------------------------------------------
  // Character case.
  //
  // Python consults the full Unicode case tables; this model covers the
  // alphabets the service restores (Croatian, Slovene and Serbian in Latin
  // and Cyrillic script): ASCII letters, the Latin-1 letters, the letters
  // c-acute, c-caron, d-stroke, s-caron, z-caron, and basic Cyrillic. Every
  // mapping below is one character to one character, so lowering a string
  // keeps its length. Characters outside the table are caseless.
  // ---------------------------------------------------------------------

  /** The upper-case letters with a one-character lower-case mate. */
  predicate IsUpper(c: char) {
    || ('A' <= c <= 'Z')
    || ('\U{C0}' <= c <= '\U{DE}' && c != '\U{D7}')
    || c == '\U{106}' || c == '\U{10C}' || c == '\U{110}' || c == '\U{160}' || c == '\U{17D}'
    || ('\U{400}' <= c <= '\U{42F}')
  }

  /** The lower-case letters that are the mates of `IsUpper` letters. */
  predicate IsLower(c: char) {
    || ('a' <= c <= 'z')
    || ('\U{E0}' <= c <= '\U{FE}' && c != '\U{F7}')
    || c == '\U{107}' || c == '\U{10D}' || c == '\U{111}' || c == '\U{161}' || c == '\U{17E}'
    || ('\U{430}' <= c <= '\U{45F}')
  }

  /** `c.lower()` for a single character. */
  function Lower(c: char): (l: char)
    ensures !IsUpper(c) ==> l == c
    ensures IsUpper(c) ==> IsLower(l)
  {
    if ('A' <= c <= 'Z') || ('\U{C0}' <= c <= '\U{DE}' && c != '\U{D7}') || ('\U{410}' <= c <= '\U{42F}') then
      (c as int + 0x20) as char
    else if c == '\U{106}' || c == '\U{10C}' || c == '\U{110}' || c == '\U{160}' || c == '\U{17D}' then
      (c as int + 1) as char
    else if '\U{400}' <= c <= '\U{40F}' then
      (c as int + 0x50) as char
    else
      c
  }

  /** `c.upper()` for a single character. */
  function Upper(c: char): (u: char)
    ensures !IsLower(c) ==> u == c
    ensures IsLower(c) ==> IsUpper(u)
  {
    if ('a' <= c <= 'z') || ('\U{E0}' <= c <= '\U{FE}' && c != '\U{F7}') || ('\U{430}' <= c <= '\U{44F}') then
      (c as int - 0x20) as char
    else if c == '\U{107}' || c == '\U{10D}' || c == '\U{111}' || c == '\U{161}' || c == '\U{17E}' then
      (c as int - 1) as char
    else if '\U{450}' <= c <= '\U{45F}' then
      (c as int - 0x50) as char
    else
      c
  }

  /** Upper-casing the lower-case form of an upper-case letter gives the letter back. */
  lemma UpperLower(c: char)
    requires IsUpper(c)
    ensures Upper(Lower(c)) == c
  {
  }

  /** Upper-casing twice is upper-casing once. */
  lemma UpperIdempotent(c: char)
    ensures Upper(Upper(c)) == Upper(c)
  {
  }

  /** `s.lower()`. */
  function LowerString(s: string): (r: string)
    ensures |r| == |s|
    ensures forall i :: 0 <= i < |s| ==> r[i] == Lower(s[i])
  {
    seq(|s|, i requires 0 <= i < |s| => Lower(s[i]))
  }

  // ---------------------------------------------------------------------
  // Whitespace and strip.
  // ---------------------------------------------------------------------

  /** `c.isspace()`: the characters Python treats as whitespace. */
  predicate IsWhitespace(c: char) {
    || c == ' '
    || ('\t' <= c <= '\r')
    || ('\U{1C}' <= c <= '\U{1F}')
    || c == '\U{85}' || c == '\U{A0}' || c == '\U{1680}'
    || ('\U{2000}' <= c <= '\U{200A}')
    || c == '\U{2028}' || c == '\U{2029}' || c == '\U{202F}' || c == '\U{205F}' || c == '\U{3000}'
  }

  /** `s.lstrip()`. */
  function StripLeft(s: string): (r: string)
    ensures |r| <= |s| && r == s[|s| - |r|..]
    ensures forall k :: 0 <= k < |s| - |r| ==> IsWhitespace(s[k])
    ensures r == [] || !IsWhitespace(r[0])
  {
    if |s| > 0 && IsWhitespace(s[0]) then StripLeft(s[1..]) else s
  }

  /** `s.rstrip()`. */
  function StripRight(s: string): (r: string)
    ensures |r| <= |s| && r == s[..|r|]
    ensures forall k :: |r| <= k < |s| ==> IsWhitespace(s[k])
    ensures r == [] || !IsWhitespace(r[|r| - 1])
  {
    if |s| > 0 && IsWhitespace(s[|s| - 1]) then StripRight(s[..|s| - 1]) else s
  }

  /** Neither the first nor the last character is whitespace. */
  predicate Trimmed(s: string) {
    s == [] || (!IsWhitespace(s[0]) && !IsWhitespace(s[|s| - 1]))
  }

  /** `s.strip()`: `StripLeft` then `StripRight`, so only whitespace is cut
      on either side; the result neither starts nor ends with whitespace,
      and it is empty exactly when `s` is all whitespace. */
  function Strip(s: string): (r: string)
    ensures Trimmed(r)
    ensures r == [] <==> forall k :: 0 <= k < |s| ==> IsWhitespace(s[k])
  {
    var l := StripLeft(s);
    var r := StripRight(l);
    StripParts(s, l, r);
    StripEnds(l, r);
    r
  }

  lemma StripEnds(l: string, r: string)
    requires l == [] || !IsWhitespace(l[0])
    requires r == StripRight(l)
    ensures Trimmed(r)
  {
    if r != [] {
      assert r[0] == l[0];
    }
  }

  lemma StripParts(s: string, l: string, r: string)
    requires l == StripLeft(s) && r == StripRight(l)
    ensures r == [] <==> forall k :: 0 <= k < |s| ==> IsWhitespace(s[k])
  {
    var n := |s| - |l|;
    if r != [] {
      assert r[0] == l[0] == s[n];
    } else {
      forall k | |s| - |l| <= k < |s| ensures IsWhitespace(s[k]) {
        assert s[k] == l[k - (|s| - |l|)];
      }
    }
  }

  /** `r` is `s` with `i` whitespace characters cut in front and only
      whitespace cut behind. */
  predicate CutAt(s: string, r: string, i: nat) {
    && i + |r| <= |s|
    && (forall j :: 0 <= j < |r| ==> r[j] == s[i + j])
    && (forall k :: 0 <= k < i ==> IsWhitespace(s[k]))
    && (forall k :: i + |r| <= k < |s| ==> IsWhitespace(s[k]))
  }

  /** `s.strip()` cuts a whitespace prefix and a whitespace suffix and keeps
      the rest of `s` as it is. */
  lemma StripCutsOnlyWhitespace(s: string)
    ensures exists i: nat :: CutAt(s, Strip(s), i)
  {
    StripCut(s);
    assert CutAt(s, Strip(s), |s| - |StripLeft(s)|);
  }

  lemma StripCut(s: string)
    ensures CutAt(s, StripRight(StripLeft(s)), |s| - |StripLeft(s)|)
  {
    var i := |s| - |StripLeft(s)|;
    var r := StripRight(StripLeft(s));
    forall j | 0 <= j < |r| ensures r[j] == s[i + j] {
      StripRightAt(StripLeft(s), j);
      StripLeftAt(s, j);
    }
    forall k | 0 <= k < i ensures IsWhitespace(s[k]) {
      StripLeftHead(s, k);
    }
    forall k | i + |r| <= k < |s| ensures IsWhitespace(s[k]) {
      StripLeftAt(s, k - i);
      StripRightTail(StripLeft(s), k - i);
    }
  }

  lemma StripLeftHead(s: string, k: nat)
    requires k < |s| - |StripLeft(s)|
    ensures IsWhitespace(s[k])
  {
  }

  lemma StripRightTail(l: string, k: nat)
    requires |StripRight(l)| <= k < |l|
    ensures IsWhitespace(l[k])
  {
  }

  lemma StripLeftAt(s: string, j: nat)
    requires j < |StripLeft(s)|
    ensures StripLeft(s)[j] == s[|s| - |StripLeft(s)| + j]
  {
  }

  lemma StripRightAt(l: string, j: nat)
    requires j < |StripRight(l)|
    ensures StripRight(l)[j] == l[j]
  {
  }

  // ---------------------------------------------------------------------
  // join and split.
  // ---------------------------------------------------------------------

  /** `sep.join(parts)`. */
  function Join(parts: seq<string>, sep: string): (r: string)
    ensures |parts| == 1 ==> r == parts[0]
  {
    if |parts| == 0 then ""
    else if |parts| == 1 then parts[0]
    else parts[0] + sep + Join(parts[1..], sep)
  }

  /** `s.split(d)` for a one-character separator `d`: at least one part, no
      part contains `d`, and joining the parts with `d` gives `s` back. */
  function Split(s: string, d: char): (parts: seq<string>)
    ensures |parts| >= 1
    ensures forall i :: 0 <= i < |parts| ==> d !in parts[i]
    ensures forall i, c :: 0 <= i < |parts| && c in parts[i] ==> c in s
    ensures Join(parts, [d]) == s
    decreases |s|
  {
    if |s| == 0 then [""]
    else if s[0] == d then
      var rest := Split(s[1..], d);
      assert s == [d] + s[1..];
      [""] + rest
    else
      var rest := Split(s[1..], d);
      var parts := [[s[0]] + rest[0]] + rest[1..];
      assert parts[1..] == rest[1..];
      assert s == [s[0]] + s[1..];
      parts
  }

  /** Joining two or more parts puts the separator in. */
  lemma JoinHasSep(parts: seq<string>, d: char)
    requires |parts| >= 2
    ensures d in Join(parts, [d])
  {
    var j := Join(parts, [d]);
    assert j == parts[0] + [d] + Join(parts[1..], [d]);
    assert j[|parts[0]|] == d;
  }

  /** A string without the separator splits into itself alone. */
  lemma {:induction false} SplitNoSep(s: string, d: char)
    requires d !in s
    ensures Split(s, d) == [s]
    decreases |s|
  {
    if |s| > 0 {
      assert s[0] != d;
      SplitNoSep(s[1..], d);
      assert [s[0]] + s[1..] == s;
    }
  }

  /** `s.replace(' ', '')`. */
  function RemoveSpaces(s: string): (r: string)
    ensures ' ' !in r
    ensures ' ' !in s ==> r == s
    ensures (forall k :: 0 <= k < |s| ==> s[k] == ' ') ==> r == ""
    ensures |r| <= |s|
  {
    if |s| == 0 then ""
    else if s[0] == ' ' then RemoveSpaces(s[1..])
    else [s[0]] + RemoveSpaces(s[1..])
  }

  /** Removing spaces distributes over concatenation. */
  lemma {:induction false} RemoveSpacesConcat(a: string, b: string)
    ensures RemoveSpaces(a + b) == RemoveSpaces(a) + RemoveSpaces(b)
    decreases |a|
  {
    if |a| > 0 {
      assert (a + b)[1..] == a[1..] + b;
      RemoveSpacesConcat(a[1..], b);
    } else {
      assert a + b == b;
    }
  }
}
