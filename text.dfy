/** Character classes and string helpers shared by the scanners.  Everything is
    restricted to ASCII: whitespace is the ASCII part of Python's
    `str.isspace` (which is also what `\s` and `str.strip()` use), digits are
    `0`-`9`, letters are `A`-`Z` and `a`-`z`. */
module Text {

  /** Python's whitespace, restricted to ASCII: tab, line feed, vertical tab,
      form feed, carriage return, the four information separators and space. */
  predicate IsSpace(c: char) {
    var k := c as int;
    k == 32 || 9 <= k <= 13 || 28 <= k <= 31
  }

  predicate IsDigit(c: char) {
    '0' <= c <= '9'
  }

  predicate IsUpper(c: char) {
    'A' <= c <= 'Z'
  }

  predicate IsLower(c: char) {
    'a' <= c <= 'z'
  }

  /** `[A-Z]` under `re.IGNORECASE`. */
  predicate IsLetter(c: char) {
    IsUpper(c) || IsLower(c)
  }

  function ToLower(c: char): (r: char)
    ensures IsUpper(c) ==> IsLower(r) && r as int == c as int + 32
    ensures !IsUpper(c) ==> r == c
  {
    if IsUpper(c) then (c as int + 32) as char else c
  }

  function ToUpper(c: char): (r: char)
    ensures IsLower(c) ==> IsUpper(r) && r as int + 32 == c as int
    ensures !IsLower(c) ==> r == c
  {
    if IsLower(c) then (c as int - 32) as char else c
  }

  /** The characters the pattern `[\d\.]+` accepts. */
  predicate IsNumeralChar(c: char) {
    IsDigit(c) || c == '.'
  }

  /** The character classes the scanners take runs of: `\s`, `\d`,
      `[A-Z]` under `re.IGNORECASE`, and `[\d\.]`. */
  datatype CharClass = Space | Digit | Letter | Numeral

  predicate InClass(c: char, k: CharClass) {
    match k
    case Space => IsSpace(c)
    case Digit => IsDigit(c)
    case Letter => IsLetter(c)
    case Numeral => IsNumeralChar(c)
  }

  /** `str.lower()`. */
  function Lower(s: string): (r: string)
    ensures |r| == |s|
    ensures forall i :: 0 <= i < |s| ==> r[i] == ToLower(s[i])
  {
    seq(|s|, i requires 0 <= i < |s| => ToLower(s[i]))
  }

  /** `str.capitalize()`: the first character upper-cased, the rest lower-cased. */
  function Capitalize(s: string): (r: string)
    ensures |r| == |s|
    ensures |s| > 0 ==> r[0] == ToUpper(s[0])
    ensures forall i :: 1 <= i < |s| ==> r[i] == ToLower(s[i])
  {
    if |s| == 0 then [] else [ToUpper(s[0])] + Lower(s[1..])
  }

  /** Capitalizing forgets the case of the letters it was given: `MONDAY`,
      `monday` and `mOnDaY` all give `Monday`. */
  lemma CapitalizeIgnoresCase(a: string, b: string)
    requires Lower(a) == Lower(b)
    ensures Capitalize(a) == Capitalize(b)
  {
    assert |a| == |b| by { assert |Lower(a)| == |Lower(b)|; }
    forall i | 0 <= i < |a|
      ensures Capitalize(a)[i] == Capitalize(b)[i]
    {
      assert ToLower(a[i]) == ToLower(b[i]) by { assert Lower(a)[i] == Lower(b)[i]; }
    }
  }

  /** The end of the run of characters satisfying class `p` that starts at `i`:
      the greedy `p*` of a regular expression. */
  function SpanEnd(text: string, i: nat, p: CharClass): (j: nat)
    requires i <= |text|
    ensures i <= j <= |text|
    ensures j < |text| ==> !InClass(text[j], p)
    decreases |text| - i
  {
    if i < |text| && InClass(text[i], p) then SpanEnd(text, i + 1, p) else i
  }

  /** Every character of the run satisfies class `p`. */
  lemma {:induction false} SpanEndRun(text: string, i: nat, p: CharClass)
    requires i <= |text|
    ensures forall k :: i <= k < SpanEnd(text, i, p) ==> InClass(text[k], p)
    decreases |text| - i
  {
    if i < |text| && InClass(text[i], p) {
      SpanEndRun(text, i + 1, p);
    }
  }

  /** A run that stops at a character outside class `p` is the greedy run. */
  lemma {:induction false} SpanEndOfRun(text: string, i: nat, j: nat, p: CharClass)
    requires i <= j <= |text|
    requires forall k :: i <= k < j ==> InClass(text[k], p)
    requires j < |text| ==> !InClass(text[j], p)
    ensures SpanEnd(text, i, p) == j
    decreases j - i
  {
    if i < j {
      SpanEndOfRun(text, i + 1, j, p);
    }
  }

  /** `needle in hay` for strings: `needle` occurs as a contiguous piece. */
  predicate Contains(hay: string, needle: string) {
    exists i :: 0 <= i <= |hay| - |needle| && OccursAt(hay, needle, i)
  }

  /** `needle` occurs in `hay` starting at offset `i`. */
  predicate OccursAt(hay: string, needle: string, i: int) {
    0 <= i <= |hay| - |needle| && hay[i..i + |needle|] == needle
  }

  /** Where the run of characters satisfying class `p` that ends at `j` begins,
      scanning back no further than `lo`. */
  function SpanStartBack(text: string, lo: nat, j: nat, p: CharClass): (k: nat)
    requires lo <= j <= |text|
    ensures lo <= k <= j
    ensures lo < k ==> !InClass(text[k - 1], p)
    decreases j - lo
  {
    if lo < j && InClass(text[j - 1], p) then SpanStartBack(text, lo, j - 1, p) else j
  }

  /** Every character of that run satisfies class `p`. */
  lemma {:induction false} SpanStartBackRun(text: string, lo: nat, j: nat, p: CharClass)
    requires lo <= j <= |text|
    ensures forall k :: SpanStartBack(text, lo, j, p) <= k < j ==> InClass(text[k], p)
    decreases j - lo
  {
    if lo < j && InClass(text[j - 1], p) {
      SpanStartBackRun(text, lo, j - 1, p);
    }
  }

  /** Python's `str.strip()`: the slice of `s` that is left once the leading
      and trailing whitespace is dropped. */
  function Strip(s: string): string {
    var lo := SpanEnd(s, 0, Space);
    s[lo..SpanStartBack(s, lo, |s|, Space)]
  }

  /** The stripped text is a slice of `s` with only whitespace outside it,
      and it starts and ends with a non-space character (or is empty). */
  lemma StripSpec(s: string)
    ensures var r, lo := Strip(s), SpanEnd(s, 0, Space);
            lo + |r| <= |s| && r == s[lo..lo + |r|]
            && (forall i :: 0 <= i < lo ==> IsSpace(s[i]))
            && (forall i :: lo + |r| <= i < |s| ==> IsSpace(s[i]))
            && (r != [] ==> !IsSpace(r[0]) && !IsSpace(r[|r| - 1]))
  {
    var lo := SpanEnd(s, 0, Space);
    SpanEndRun(s, 0, Space);
    SpanStartBackRun(s, lo, |s|, Space);
  }

  /** Stripping a text that begins with the non-blank piece `s[..h]`, itself
      ending in a non-blank character, keeps that piece at the front. */
  lemma StripKeepsNonBlankPrefix(s: string, h: nat)
    requires 0 < h <= |s|
    requires !IsSpace(s[0]) && !IsSpace(s[h - 1])
    ensures |Strip(s)| >= h && Strip(s)[..h] == s[..h]
  {
    assert SpanEnd(s, 0, Space) == 0;
    SpanStartBackRun(s, 0, |s|, Space);
  }

  /** Stripping twice strips nothing more. */
  lemma StripIdempotent(s: string)
    ensures Strip(Strip(s)) == Strip(s)
  {
    StripSpec(s);
    if |Strip(s)| > 0 {
      StripNonBlank(Strip(s));
    }
  }

  /** A text with no blank at either end is its own stripped form. */
  lemma StripNonBlank(s: string)
    requires s != [] && !IsSpace(s[0]) && !IsSpace(s[|s| - 1])
    ensures Strip(s) == s
  {
    StripKeepsNonBlankPrefix(s, |s|);
    assert s[..|s|] == s;
  }

  /** A text that starts with a non-empty piece starts with its first
      character. */
  lemma FirstOfJoined(a: string, b: string)
    requires a != []
    ensures (a + b)[0] == a[0]
  {
  }

  lemma AppendAssoc(a: string, b: string, c: string)
    ensures a + b + c == a + (b + c)
  {
  }

  /** An empty piece between two texts changes nothing. */
  lemma EmptyMiddle(a: string, b: string)
    ensures a + "" + b == a + b
  {
    assert a + "" == a;
  }

  /** A piece placed between two texts occurs right after the first. */
  lemma OccursBetween(a: string, needle: string, b: string)
    ensures OccursAt(a + needle + b, needle, |a|)
    ensures Contains(a + needle + b, needle)
  {
    var hay := a + needle + b;
    assert hay[|a|..|a| + |needle|] == needle;
    assert OccursAt(hay, needle, |a|);
  }

  /** An occurrence inside the second of four pieces is an occurrence in
      their concatenation, shifted by the first. */
  lemma OccursInSecond(a: string, b: string, c: string, d: string, needle: string, k: int)
    requires OccursAt(b, needle, k)
    ensures OccursAt(a + b + c + d, needle, |a| + k)
  {
    var hay := a + b + c + d;
    assert hay[|a| + k..|a| + k + |needle|] == b[k..k + |needle|];
  }

  /** The same for the middle of three pieces. */
  lemma OccursInMiddle(a: string, b: string, c: string, needle: string, k: int)
    requires OccursAt(b, needle, k)
    ensures OccursAt(a + b + c, needle, |a| + k)
  {
    var hay := a + b + c;
    assert hay[|a| + k..|a| + k + |needle|] == b[k..k + |needle|];
  }

  /** A piece cannot occur where a character other than its first stands. */
  lemma MismatchAt(a: string, b: string, needle: string)
    requires b != [] && needle != [] && b[0] != needle[0]
    ensures !OccursAt(a + b, needle, |a|)
  {
    var hay := a + b;
    if |a| + |needle| <= |hay| {
      assert hay[|a|..|a| + |needle|][0] == b[0];
    }
  }

  /** `sep.join(parts)`. */
  function Join(parts: seq<string>, sep: string): string
    decreases |parts|
  {
    if parts == [] then ""
    else if |parts| == 1 then parts[0]
    else Join(parts[..|parts| - 1], sep) + sep + parts[|parts| - 1]
  }

  /** Joining two non-empty lists is joining each and putting `sep` between. */
  lemma {:induction false} JoinAppend(a: seq<string>, b: seq<string>, sep: string)
    requires a != [] && b != []
    ensures Join(a + b, sep) == Join(a, sep) + sep + Join(b, sep)
    decreases |b|
  {
    var last := b[|b| - 1];
    assert (a + b)[..|a + b| - 1] == a + b[..|b| - 1];
    assert (a + b)[|a + b| - 1] == last;
    if |b| > 1 {
      JoinAppend(a, b[..|b| - 1], sep);
    } else {
      assert a + b == a + [last];
      assert (a + [last])[..|a|] == a;
    }
  }

  /** Every part occurs in the joined text. */
  lemma {:induction false} JoinHasEach(parts: seq<string>, sep: string, i: nat)
    requires i < |parts|
    ensures Contains(Join(parts, sep), parts[i])
    decreases |parts|
  {
    var last := parts[|parts| - 1];
    if |parts| == 1 {
      OccursBetween("", last, "");
      assert "" + last + "" == Join(parts, sep);
    } else if i == |parts| - 1 {
      OccursBetween(Join(parts[..|parts| - 1], sep) + sep, last, "");
      assert Join(parts[..|parts| - 1], sep) + sep + last + "" == Join(parts, sep);
    } else {
      var init := parts[..|parts| - 1];
      JoinHasEach(init, sep, i);
      assert init[i] == parts[i];
      ContainsExtended(Join(init, sep), parts[i], sep + last);
      assert Join(init, sep) + (sep + last) == Join(parts, sep);
    }
  }

  /** What occurs in a text occurs in any extension of it. */
  lemma ContainsExtended(a: string, needle: string, b: string)
    requires Contains(a, needle)
    ensures Contains(a + b, needle)
  {
    var k :| 0 <= k <= |a| - |needle| && OccursAt(a, needle, k);
    assert (a + b)[k..k + |needle|] == a[k..k + |needle|];
    assert OccursAt(a + b, needle, k);
  }
}
