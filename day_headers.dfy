/** The day-header pattern `DAY\s+\d+\s*:\s*([A-Z]+)` under `re.IGNORECASE`,
    and `re.finditer` over it (foodlogger.py:74-75, main.py:71-74).

    The pattern has no anchor and no word boundary, so `toDAY 2: x` matches
    from its `DAY`.  Each quantified class in it is followed by a character
    the class cannot contain, so the regular-expression engine never has to
    backtrack: the pattern matches at a position exactly when a scan taking
    maximal runs succeeds there.  `MatchAt` is that scan, and
    `MatchAtComplete` with the contract of `MatchAt` shows it agrees with the
    declarative reading of the pattern, `HeaderShape`. */
module DayHeaders {
  import opened Wrappers
  import opened Text

  /** A match spanning `text[start..stop]`; group 1 is `text[nameStart..stop]`. */
  datatype HeaderMatch = HeaderMatch(start: nat, nameStart: nat, stop: nat)

  ghost predicate AllIn(text: string, lo: int, hi: int, p: CharClass)
    requires 0 <= lo <= hi <= |text|
  {
    forall k :: lo <= k < hi ==> InClass(text[k], p)
  }

  /** `DAY` under `re.IGNORECASE` at position `s`. */
  predicate IsDayWord(text: string, s: int)
    requires 0 <= s && s + 3 <= |text|
  {
    ToLower(text[s]) == 'd' && ToLower(text[s + 1]) == 'a' && ToLower(text[s + 2]) == 'y'
  }

  /** The pattern read declaratively: `DAY` in any case at `s`, one or more
      blanks up to `a`, one or more digits up to `b`, blanks up to `c`, a colon
      at `c`, blanks up to `d`, and the longest run of letters from `d` to `e`. */
  ghost predicate HeaderShape(text: string, s: int, a: int, b: int, c: int, d: int, e: int) {
    && 0 <= s && s + 3 < a < b <= c && c + 1 <= d < e <= |text|
    && IsDayWord(text, s)
    && AllIn(text, s + 3, a, Space)
    && AllIn(text, a, b, Digit)
    && AllIn(text, b, c, Space)
    && text[c] == ':'
    && AllIn(text, c + 1, d, Space)
    && AllIn(text, d, e, Letter)
    && (e < |text| ==> !IsLetter(text[e]))
  }

  /** `m` is the match the pattern makes at `m.start`. */
  ghost predicate IsHeaderMatch(text: string, m: HeaderMatch) {
    exists a, b, c :: HeaderShape(text, m.start, a, b, c, m.nameStart, m.stop)
  }

  /** The scan at position `i`: `re.match` of the pattern at `i`. */
  function MatchAt(text: string, i: nat): (r: Option<HeaderMatch>)
    requires i <= |text|
    ensures r.Some? ==> r.value.start == i && i + 3 < r.value.nameStart < r.value.stop <= |text|
  {
    if !(i + 3 <= |text| && IsDayWord(text, i)) then None
    else
      var a := SpanEnd(text, i + 3, Space);
      if a == i + 3 then None
      else
        var b := SpanEnd(text, a, Digit);
        if b == a then None
        else
          var c := SpanEnd(text, b, Space);
          if c == |text| || text[c] != ':' then None
          else
            var d := SpanEnd(text, c + 1, Space);
            var e := SpanEnd(text, d, Letter);
            if e == d then None
            else Some(HeaderMatch(i, d, e))
  }

  /** What the scan finds has the shape of the pattern. */
  lemma MatchAtSound(text: string, i: nat)
    requires i <= |text|
    ensures MatchAt(text, i).Some? ==> IsHeaderMatch(text, MatchAt(text, i).value)
  {
    if MatchAt(text, i).Some? {
      var a := SpanEnd(text, i + 3, Space);
      var b := SpanEnd(text, a, Digit);
      var c := SpanEnd(text, b, Space);
      var d := SpanEnd(text, c + 1, Space);
      var e := SpanEnd(text, d, Letter);
      assert MatchAt(text, i) == Some(HeaderMatch(i, d, e));
      SpanEndRun(text, i + 3, Space);
      SpanEndRun(text, a, Digit);
      SpanEndRun(text, b, Space);
      SpanEndRun(text, c + 1, Space);
      SpanEndRun(text, d, Letter);
      ShapeOfRuns(text, i, a, b, c, d, e);
    }
  }

  /** The runs the scan takes, put together, give the pattern's shape. */
  lemma ShapeOfRuns(text: string, s: nat, a: nat, b: nat, c: nat, d: nat, e: nat)
    requires s + 3 < a < b <= c < |text| && c + 1 <= d < e <= |text|
    requires IsDayWord(text, s) && text[c] == ':'
    requires forall k :: s + 3 <= k < a ==> IsSpace(text[k])
    requires forall k :: a <= k < b ==> IsDigit(text[k])
    requires forall k :: b <= k < c ==> IsSpace(text[k])
    requires forall k :: c + 1 <= k < d ==> IsSpace(text[k])
    requires forall k :: d <= k < e ==> IsLetter(text[k])
    requires e < |text| ==> !IsLetter(text[e])
    ensures IsHeaderMatch(text, HeaderMatch(s, d, e))
  {
    assert HeaderShape(text, s, a, b, c, d, e);
  }

  /** Wherever the pattern matches, the scan finds that very match: together
      with the contract of `MatchAt`, the scan is exact. */
  lemma MatchAtComplete(text: string, s: nat, a: int, b: int, c: int, d: int, e: int)
    requires HeaderShape(text, s, a, b, c, d, e)
    ensures MatchAt(text, s) == Some(HeaderMatch(s, d, e))
  {
    assert !IsSpace(text[a]) by { assert IsDigit(text[a]); }
    SpanEndOfRun(text, s + 3, a, Space);
    assert !IsDigit(text[b]) by { assert b == c ==> text[b] == ':'; }
    SpanEndOfRun(text, a, b, Digit);
    SpanEndOfRun(text, b, c, Space);
    assert !IsSpace(text[d]) by { assert IsLetter(text[d]); }
    SpanEndOfRun(text, c + 1, d, Space);
    SpanEndOfRun(text, d, e, Letter);
  }

  /** The parts of a match: `DAY` in any case at the start, a letter at the
      end, and letters, group 1, from `nameStart` to the end. */
  lemma HeaderParts(text: string, m: HeaderMatch)
    requires IsHeaderMatch(text, m)
    ensures m.start + 3 <= m.nameStart < m.stop <= |text| && IsDayWord(text, m.start)
    ensures forall i :: m.nameStart <= i < m.stop ==> IsLetter(text[i])
  {
    var a, b, c :| HeaderShape(text, m.start, a, b, c, m.nameStart, m.stop);
  }

  /** The day name, group 1 of the match. */
  function Group1(text: string, m: HeaderMatch): string
    requires m.nameStart <= m.stop <= |text|
  {
    text[m.nameStart..m.stop]
  }

  /** The matches found are genuine, lie at or after `pos`, and come left to
      right without overlapping. */
  ghost predicate Ordered(text: string, pos: nat, ms: seq<HeaderMatch>) {
    && (forall j :: 0 <= j < |ms| ==>
          pos <= ms[j].start < ms[j].nameStart < ms[j].stop <= |text| && IsHeaderMatch(text, ms[j]))
    && (forall i, j :: 0 <= i < j < |ms| ==> ms[i].stop <= ms[j].start)
  }

  /** `re.finditer(day_pattern, text[pos:])` as positions in `text`: the
      leftmost match at or after `pos`, then the search resumes where that
      match ended. */
  function FindHeaders(text: string, pos: nat): seq<HeaderMatch>
    requires pos <= |text|
    decreases |text| - pos
  {
    if pos == |text| then []
    else
      match MatchAt(text, pos)
      case Some(m) => [m] + FindHeaders(text, m.stop)
      case None => FindHeaders(text, pos + 1)
  }

  /** The matches found are genuine, lie at or after `pos`, and come left
      to right without overlapping. */
  lemma {:induction false} FindHeadersOrdered(text: string, pos: nat)
    requires pos <= |text|
    ensures Ordered(text, pos, FindHeaders(text, pos))
    decreases |text| - pos
  {
    if pos < |text| {
      var r := MatchAt(text, pos);
      if r.Some? {
        FindHeadersOrdered(text, r.value.stop);
        FindHeadersAtMatch(text, pos);
        MatchAtSound(text, pos);
        OrderedCons(text, pos, r.value, FindHeaders(text, r.value.stop));
      } else {
        FindHeadersOrdered(text, pos + 1);
        FindHeadersNoMatch(text, pos);
        OrderedLater(text, pos, FindHeaders(text, pos + 1));
      }
    }
  }

  lemma OrderedCons(text: string, pos: nat, m: HeaderMatch, rest: seq<HeaderMatch>)
    requires pos <= m.start < m.nameStart < m.stop <= |text| && IsHeaderMatch(text, m)
    requires Ordered(text, m.stop, rest)
    ensures Ordered(text, pos, [m] + rest)
  {
    ConsEach(text, pos, m, rest);
    ConsApart(m, rest);
  }

  lemma ConsEach(text: string, pos: nat, m: HeaderMatch, rest: seq<HeaderMatch>)
    requires pos <= m.start < m.nameStart < m.stop <= |text| && IsHeaderMatch(text, m)
    requires forall j :: 0 <= j < |rest| ==>
      m.stop <= rest[j].start < rest[j].nameStart < rest[j].stop <= |text| && IsHeaderMatch(text, rest[j])
    ensures forall j :: 0 <= j < |[m] + rest| ==>
      pos <= ([m] + rest)[j].start < ([m] + rest)[j].nameStart < ([m] + rest)[j].stop <= |text|
      && IsHeaderMatch(text, ([m] + rest)[j])
  {
    var ms := [m] + rest;
    forall j | 0 <= j < |ms|
      ensures pos <= ms[j].start < ms[j].nameStart < ms[j].stop <= |text| && IsHeaderMatch(text, ms[j])
    {
      if j > 0 { assert ms[j] == rest[j - 1]; }
    }
  }

  lemma ConsApart(m: HeaderMatch, rest: seq<HeaderMatch>)
    requires forall j :: 0 <= j < |rest| ==> m.stop <= rest[j].start
    requires forall i, j :: 0 <= i < j < |rest| ==> rest[i].stop <= rest[j].start
    ensures forall i, j :: 0 <= i < j < |[m] + rest| ==> ([m] + rest)[i].stop <= ([m] + rest)[j].start
  {
    var ms := [m] + rest;
    forall i, j | 0 <= i < j < |ms| ensures ms[i].stop <= ms[j].start {
      assert ms[j] == rest[j - 1];
      if i > 0 { assert ms[i] == rest[i - 1]; }
    }
  }

  lemma OrderedLater(text: string, pos: nat, ms: seq<HeaderMatch>)
    requires Ordered(text, pos + 1, ms)
    ensures Ordered(text, pos, ms)
  {
  }

  /** Every position at or after `pos` where the pattern matches lies inside
      one of the matches in `ms`. */
  ghost predicate Covered(text: string, pos: nat, ms: seq<HeaderMatch>) {
    forall k :: pos <= k <= |text| && MatchesAt(text, k) ==> InsideSome(ms, k)
  }

  /** The pattern matches at position `k`. */
  predicate MatchesAt(text: string, k: nat)
    requires k <= |text|
  {
    MatchAt(text, k).Some?
  }

  ghost predicate InsideSome(ms: seq<HeaderMatch>, k: int) {
    exists j :: 0 <= j < |ms| && ms[j].start <= k < ms[j].stop
  }

  /** What `re.finditer` promises: the matches are ordered as above, and every
      position where the pattern matches lies inside one of them (it was
      either reported or swallowed by an earlier, overlapping match). */
  ghost predicate IsScan(text: string, pos: nat, ms: seq<HeaderMatch>) {
    Ordered(text, pos, ms) && Covered(text, pos, ms)
  }

  /** A match at `pos` is reported, and the search resumes at its end. */
  lemma FindHeadersAtMatch(text: string, pos: nat)
    requires pos < |text| && MatchAt(text, pos).Some?
    ensures FindHeaders(text, pos) == [MatchAt(text, pos).value] + FindHeaders(text, MatchAt(text, pos).value.stop)
  {
  }

  /** Without a match at `pos`, the search moves on by one character. */
  lemma FindHeadersNoMatch(text: string, pos: nat)
    requires pos < |text| && MatchAt(text, pos).None?
    ensures FindHeaders(text, pos) == FindHeaders(text, pos + 1)
  {
  }

  lemma FindHeadersIsScan(text: string, pos: nat)
    requires pos <= |text|
    ensures IsScan(text, pos, FindHeaders(text, pos))
  {
    FindHeadersOrdered(text, pos);
    FindHeadersCovered(text, pos);
  }

  lemma {:induction false} FindHeadersCovered(text: string, pos: nat)
    requires pos <= |text|
    ensures Covered(text, pos, FindHeaders(text, pos))
    decreases |text| - pos
  {
    if pos < |text| {
      var r := MatchAt(text, pos);
      if r.Some? {
        FindHeadersCovered(text, r.value.stop);
        CoveredAtMatch(text, pos);
      } else {
        FindHeadersCovered(text, pos + 1);
        CoveredNoMatch(text, pos);
      }
    } else {
      CoveredAtEnd(text);
    }
  }

  lemma CoveredAtEnd(text: string)
    ensures Covered(text, |text|, FindHeaders(text, |text|))
  {
    assert !MatchesAt(text, |text|);
  }

  lemma CoveredAtMatch(text: string, pos: nat)
    requires pos < |text| && MatchAt(text, pos).Some?
    requires Covered(text, MatchAt(text, pos).value.stop, FindHeaders(text, MatchAt(text, pos).value.stop))
    ensures Covered(text, pos, FindHeaders(text, pos))
  {
    var m := MatchAt(text, pos).value;
    FindHeadersAtMatch(text, pos);
    CoveredCons(text, pos, m, FindHeaders(text, m.stop));
  }

  lemma CoveredNoMatch(text: string, pos: nat)
    requires pos < |text| && MatchAt(text, pos).None?
    requires Covered(text, pos + 1, FindHeaders(text, pos + 1))
    ensures Covered(text, pos, FindHeaders(text, pos))
  {
    FindHeadersNoMatch(text, pos);
    CoveredLater(text, pos, FindHeaders(text, pos + 1));
  }

  lemma CoveredCons(text: string, pos: nat, m: HeaderMatch, rest: seq<HeaderMatch>)
    requires pos < m.stop <= |text| && m.start == pos
    requires Covered(text, m.stop, rest)
    ensures Covered(text, pos, [m] + rest)
  {
    var ms := [m] + rest;
    forall k | pos <= k <= |text| && MatchesAt(text, k)
      ensures InsideSome(ms, k)
    {
      if k < m.stop {
        assert ms[0].start <= k < ms[0].stop;
      } else {
        assert InsideSome(rest, k);
        var j :| 0 <= j < |rest| && rest[j].start <= k < rest[j].stop;
        assert ms[j + 1] == rest[j];
      }
    }
  }

  lemma CoveredLater(text: string, pos: nat, ms: seq<HeaderMatch>)
    requires pos < |text| && !MatchesAt(text, pos)
    requires Covered(text, pos + 1, ms)
    ensures Covered(text, pos, ms)
  {
  }

  /** A match the pattern makes is the one the scan finds at its start. */
  lemma Genuine(text: string, m: HeaderMatch)
    requires IsHeaderMatch(text, m)
    ensures m.start <= |text| && MatchAt(text, m.start) == Some(m)
  {
    var a, b, c :| HeaderShape(text, m.start, a, b, c, m.nameStart, m.stop);
    MatchAtComplete(text, m.start, a, b, c, m.nameStart, m.stop);
  }

  /** `re.finditer`'s result is the only sequence with those properties. */
  lemma {:induction false} ScanUnique(text: string, pos: nat, ms: seq<HeaderMatch>)
    requires pos <= |text| && IsScan(text, pos, ms)
    ensures ms == FindHeaders(text, pos)
    decreases |text| - pos
  {
    if pos < |text| {
      var r := MatchAt(text, pos);
      if r.Some? {
        ScanHead(text, pos, ms);
        ScanTail(text, pos, ms);
        ScanUnique(text, r.value.stop, ms[1..]);
        ScanAtMatch(text, pos, ms);
      } else {
        FindHeadersNoMatch(text, pos);
        ScanLater(text, pos, ms);
        ScanUnique(text, pos + 1, ms);
      }
    }
  }

  lemma ScanAtMatch(text: string, pos: nat, ms: seq<HeaderMatch>)
    requires pos < |text| && MatchAt(text, pos).Some?
    requires ms != [] && ms[0] == MatchAt(text, pos).value
    requires ms[1..] == FindHeaders(text, ms[0].stop)
    ensures ms == FindHeaders(text, pos)
  {
    FindHeadersAtMatch(text, pos);
    assert ms == [ms[0]] + ms[1..];
  }

  /** Where the scan matches at `pos`, any scan from `pos` reports that
      match first. */
  lemma ScanHead(text: string, pos: nat, ms: seq<HeaderMatch>)
    requires pos <= |text| && IsScan(text, pos, ms) && MatchAt(text, pos).Some?
    ensures ms != [] && ms[0] == MatchAt(text, pos).value
  {
    assert MatchesAt(text, pos);
    assert InsideSome(ms, pos);
    var j :| 0 <= j < |ms| && ms[j].start <= pos < ms[j].stop;
    assert ms[0].start <= ms[j].start;
    Genuine(text, ms[0]);
  }

  lemma ScanLater(text: string, pos: nat, ms: seq<HeaderMatch>)
    requires pos < |text| && IsScan(text, pos, ms) && MatchAt(text, pos).None?
    ensures IsScan(text, pos + 1, ms)
  {
    forall j | 0 <= j < |ms| ensures pos + 1 <= ms[j].start {
      Genuine(text, ms[j]);
    }
  }

  lemma ScanTail(text: string, pos: nat, ms: seq<HeaderMatch>)
    requires pos <= |text| && IsScan(text, pos, ms) && ms != []
    ensures ms[0].stop <= |text| && IsScan(text, ms[0].stop, ms[1..])
  {
    OrderedTail(text, pos, ms);
    CoveredTail(text, pos, ms);
  }

  lemma OrderedTail(text: string, pos: nat, ms: seq<HeaderMatch>)
    requires Ordered(text, pos, ms) && ms != []
    ensures Ordered(text, ms[0].stop, ms[1..])
  {
    var rest := ms[1..];
    forall j | 0 <= j < |rest| ensures ms[0].stop <= rest[j].start {
      assert rest[j] == ms[j + 1];
    }
  }

  /** Positions past the first match are covered by the others. */
  lemma CoveredTail(text: string, pos: nat, ms: seq<HeaderMatch>)
    requires Covered(text, pos, ms) && ms != [] && pos <= ms[0].stop
    ensures Covered(text, ms[0].stop, ms[1..])
  {
    var rest := ms[1..];
    forall k | ms[0].stop <= k <= |text| && MatchesAt(text, k)
      ensures InsideSome(rest, k)
    {
      assert InsideSome(ms, k);
      var j :| 0 <= j < |ms| && ms[j].start <= k < ms[j].stop;
      assert rest[j - 1] == ms[j];
    }
  }

  /** No header is found exactly when the pattern matches nowhere in the text. */
  lemma NoHeadersIff(text: string)
    ensures FindHeaders(text, 0) == [] <==>
            forall k :: 0 <= k <= |text| ==> !MatchesAt(text, k)
  {
    FindHeadersIsScan(text, 0);
    if forall k :: 0 <= k <= |text| ==> !MatchesAt(text, k) {
      ScanUnique(text, 0, []);
    }
  }

  /** The example header the meal-plan prompt asks for, `DAY 1: MONDAY`, is
      matched from its first character to its end, group 1 being `MONDAY`
      at positions 7 to 13. */
  lemma ExampleHeaderMatch()
    ensures MatchAt("DAY 1: MONDAY", 0) == Some(HeaderMatch(0, 7, 13))
  {
    var text := "DAY 1: MONDAY";
    SpanEndOfRun(text, 3, 4, Space);
    SpanEndOfRun(text, 4, 5, Digit);
    SpanEndOfRun(text, 5, 5, Space);
    SpanEndOfRun(text, 6, 7, Space);
    SpanEndOfRun(text, 7, 13, Letter);
  }
}
