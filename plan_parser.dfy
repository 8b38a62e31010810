/** `parse_meal_plan_by_day` (foodlogger.py:68-87; main.py:62-97 is the same
    code): split a generated meal plan into one entry per `DAY n: NAME`
    header, keyed by the capitalized day name. */
module PlanParser {
  import opened Text
  import opened Sequences
  import opened OrderedMaps
  import opened DayHeaders

  /** The key of the fallback entry when no header is found. */
  const FullPlanKey: string := "Full Plan"

  /** The matches lie inside the text, each header ends before the next
      one starts: all the day splitter needs to know about them. */
  ghost predicate Segmented(text: string, ms: seq<HeaderMatch>) {
    && (forall j :: 0 <= j < |ms| ==> ms[j].start < ms[j].nameStart < ms[j].stop <= |text|)
    && (forall j, k :: 0 <= j < k < |ms| ==> ms[j].stop <= ms[k].start)
  }

  /** The matches `finditer` yields are segmented. */
  lemma FindHeadersSegmented(text: string)
    ensures Segmented(text, FindHeaders(text, 0))
  {
    FindHeadersOrdered(text, 0);
  }

  /** `match.group(1).capitalize()`. */
  function DayName(text: string, m: HeaderMatch): (name: string)
    requires m.nameStart <= m.stop <= |text|
    ensures |name| == m.stop - m.nameStart
  {
    Capitalize(Group1(text, m))
  }

  /** A day name is a non-empty run of letters, upper case first and lower
      case after. */
  lemma DayNameShape(text: string, m: HeaderMatch)
    requires IsHeaderMatch(text, m)
    ensures m.nameStart < m.stop <= |text|
    ensures var name := DayName(text, m);
      |name| > 0 && IsUpper(name[0]) && forall i :: 1 <= i < |name| ==> IsLower(name[i])
  {
    HeaderParts(text, m);
    forall i | 0 <= i < m.stop - m.nameStart ensures IsLetter(Group1(text, m)[i]) {
      assert Group1(text, m)[i] == text[m.nameStart + i];
    }
  }

  /** The day names of the first `n` matches, in the order found. */
  function DayNames(text: string, ms: seq<HeaderMatch>, n: nat): (names: seq<string>)
    requires Segmented(text, ms) && n <= |ms|
    ensures |names| == n
  {
    if n == 0 then [] else DayNames(text, ms, n - 1) + [DayName(text, ms[n - 1])]
  }

  /** Where the segment of match `j` ends: at the next match's start, or at
      the end of the text for the last match. */
  function SegmentEnd(text: string, ms: seq<HeaderMatch>, j: nat): (e: nat)
    requires Segmented(text, ms) && j < |ms|
    ensures ms[j].stop <= e <= |text|
  {
    if j < |ms| - 1 then ms[j + 1].start else |text|
  }

  /** `meal_plan_text[start_pos:end_pos].strip()`. */
  function Segment(text: string, startPos: nat, endPos: nat): string
    requires startPos <= endPos <= |text|
  {
    Strip(text[startPos..endPos])
  }

  /** The stored segment of match `j`: from its header up to the next one. */
  function DaySegment(text: string, ms: seq<HeaderMatch>, j: nat): string
    requires Segmented(text, ms) && j < |ms|
  {
    Segment(text, ms[j].start, SegmentEnd(text, ms, j))
  }

  /** The stripped segments of the first `n` matches, in order. */
  function DaySegments(text: string, ms: seq<HeaderMatch>, n: nat): (segs: seq<string>)
    requires Segmented(text, ms) && n <= |ms|
    ensures |segs| == n
  {
    if n == 0 then [] else DaySegments(text, ms, n - 1) + [DaySegment(text, ms, n - 1)]
  }

  /** The `j`-th day name is that of match `j`. */
  lemma {:induction false} DayNameAt(text: string, ms: seq<HeaderMatch>, n: nat, j: nat)
    requires Segmented(text, ms) && j < n <= |ms|
    ensures DayNames(text, ms, n)[j] == DayName(text, ms[j])
  {
    if j < n - 1 {
      DayNameAt(text, ms, n - 1, j);
    }
  }

  /** The `j`-th segment is that of match `j`. */
  lemma {:induction false} DaySegmentAt(text: string, ms: seq<HeaderMatch>, n: nat, j: nat)
    requires Segmented(text, ms) && j < n <= |ms|
    ensures DaySegments(text, ms, n)[j] == DaySegment(text, ms, j)
  {
    if j < n - 1 {
      DaySegmentAt(text, ms, n - 1, j);
    }
  }

  /** What `parse_meal_plan_by_day` returns for `text`.  With `ms` the
      matches of the header pattern, left to right:
      - with no match, `{"Full Plan": text}`, the text unstripped
        (`NoHeadersIff`: exactly when the pattern matches nowhere);
      - otherwise what assigning each day name its stripped segment, in
        order, to `{}` leaves: the names in the order in which each is first
        seen, one entry per distinct name, and the segment of the LAST match
        with a name as its value (a later duplicate overwrites the value but
        keeps the first position); "Full Plan" is then not a key. */
  ghost predicate IsDayPlan(text: string, plan: OrderedMap<string, string>) {
    && plan.Valid()
    && var ms := FindHeaders(text, 0);
       if |ms| == 0 then
         plan.keys == [FullPlanKey] && plan.entries == map[FullPlanKey := text]
       else
         && Segmented(text, ms)
         && Assigned(plan, DayNames(text, ms, |ms|), DaySegments(text, ms, |ms|))
         && |plan.entries| == |set name | name in DayNames(text, ms, |ms|)|
         && FullPlanKey !in plan.entries
  }

  /** The dict `parse_meal_plan_by_day` returns: each day name assigned its
      segment in turn to `{}`, then `{"Full Plan": text}` if that left it
      empty. */
  function DayPlan(text: string): (plan: OrderedMap<string, string>)
  {
    var ms := FindHeaders(text, 0);
    FindHeadersSegmented(text);
    var daily := AssignPrefix(DayNames(text, ms, |ms|), DaySegments(text, ms, |ms|), |ms|);
    if |daily.entries| == 0 then Singleton(FullPlanKey, text) else daily
  }

  /** What the returned dict holds, in terms of the header matches. */
  lemma DayPlanSpec(text: string)
    ensures IsDayPlan(text, DayPlan(text))
  {
    FindHeadersSegmented(text);
    var ms := FindHeaders(text, 0);
    if |AssignPrefix(DayNames(text, ms, |ms|), DaySegments(text, ms, |ms|), |ms|).entries| == 0 {
      FallbackPlan(text);
    } else {
      DaysPlan(text);
    }
  }

  /** The model of `parse_meal_plan_by_day`: the matches, the loop filling
      `daily_plans`, then the fallback when it stayed empty. */
  method ParseMealPlanByDay(text: string) returns (plan: OrderedMap<string, string>)
    ensures plan == DayPlan(text)
    ensures IsDayPlan(text, plan)
  {
    var dayMatches := FindHeaders(text, 0);
    FindHeadersSegmented(text);
    plan := AssignDays(text, dayMatches);
    if |plan.entries| == 0 {
      plan := Singleton(FullPlanKey, text);
    }
    DayPlanSpec(text);
  }

  /** The `for` loop of `parse_meal_plan_by_day`: for each match in turn,
      `days[day_name] = meal_plan_text[start_pos:end_pos].strip()`. */
  method AssignDays(text: string, dayMatches: seq<HeaderMatch>) returns (days: OrderedMap<string, string>)
    requires Segmented(text, dayMatches)
    ensures days == AssignPrefix(DayNames(text, dayMatches, |dayMatches|), DaySegments(text, dayMatches, |dayMatches|), |dayMatches|)
  {
    ghost var names, segments := DayNames(text, dayMatches, |dayMatches|), DaySegments(text, dayMatches, |dayMatches|);
    days := Empty();
    var i := 0;
    while i < |dayMatches|
      invariant 0 <= i <= |dayMatches|
      invariant days == AssignPrefix(names, segments, i)
    {
      var dayName := DayName(text, dayMatches[i]);
      var startPos := dayMatches[i].start;
      var endPos := if i < |dayMatches| - 1 then dayMatches[i + 1].start else |text|;
      var dayContent := Segment(text, startPos, endPos);
      DayNameAt(text, dayMatches, |dayMatches|, i);
      DaySegmentAt(text, dayMatches, |dayMatches|, i);
      days := days.Put(dayName, dayContent);
      i := i + 1;
    }
  }

  /** After the loop, the dict is empty exactly when no header was found. */
  lemma ParseOutcome(text: string)
    requires Segmented(text, FindHeaders(text, 0))
    ensures var ms := FindHeaders(text, 0);
      |AssignPrefix(DayNames(text, ms, |ms|), DaySegments(text, ms, |ms|), |ms|).entries| == 0 <==> |ms| == 0
  {
    var ms := FindHeaders(text, 0);
    AssignAll(DayNames(text, ms, |ms|), DaySegments(text, ms, |ms|));
  }

  /** When the loop leaves entries, they are the complete day plan. */
  lemma DaysPlan(text: string)
    requires Segmented(text, FindHeaders(text, 0))
    requires var ms := FindHeaders(text, 0);
      |AssignPrefix(DayNames(text, ms, |ms|), DaySegments(text, ms, |ms|), |ms|).entries| != 0
    ensures var ms := FindHeaders(text, 0);
      IsDayPlan(text, AssignPrefix(DayNames(text, ms, |ms|), DaySegments(text, ms, |ms|), |ms|))
  {
    var ms := FindHeaders(text, 0);
    ParseOutcome(text);
    FindHeadersOrdered(text, 0);
    AssignAll(DayNames(text, ms, |ms|), DaySegments(text, ms, |ms|));
    NotFullPlanKey(text, ms, |ms|);
  }

  /** When the loop leaves no entry, `{"Full Plan": text}` is the day plan. */
  lemma FallbackPlan(text: string)
    requires Segmented(text, FindHeaders(text, 0))
    requires var ms := FindHeaders(text, 0);
      |AssignPrefix(DayNames(text, ms, |ms|), DaySegments(text, ms, |ms|), |ms|).entries| == 0
    ensures IsDayPlan(text, Singleton(FullPlanKey, text))
  {
    ParseOutcome(text);
  }

  /** Each stored segment begins with its own header, as matched: the
      header starts with `D` or `d` and ends with a letter, so stripping
      cannot cut into it. */
  lemma SegmentStartsWithHeader(text: string, ms: seq<HeaderMatch>, j: nat)
    requires Ordered(text, 0, ms) && Segmented(text, ms) && j < |ms|
    ensures var h := ms[j].stop - ms[j].start;
      |DaySegment(text, ms, j)| >= h && DaySegment(text, ms, j)[..h] == text[ms[j].start..ms[j].stop]
  {
    var m := ms[j];
    HeaderParts(text, m);
    var raw := text[m.start..SegmentEnd(text, ms, j)];
    var h := m.stop - m.start;
    assert raw[0] == text[m.start] && raw[h - 1] == text[m.stop - 1];
    StripKeepsNonBlankPrefix(raw, h);
    SliceTake(text, m.start, SegmentEnd(text, ms, j), h);
  }

  /** The text from match `j` on, cut at the match starts. */
  function Spans(text: string, ms: seq<HeaderMatch>, j: nat): string
    requires Segmented(text, ms) && j < |ms|
    decreases |ms| - j
  {
    text[ms[j].start..SegmentEnd(text, ms, j)] + if j + 1 < |ms| then Spans(text, ms, j + 1) else ""
  }

  /** The raw spans of the segments, one after another, are exactly the
      text from the first header on: they neither overlap nor leave a gap. */
  lemma {:induction false} SpansTile(text: string, ms: seq<HeaderMatch>, j: nat)
    requires Segmented(text, ms) && j < |ms|
    ensures Spans(text, ms, j) == text[ms[j].start..]
    decreases |ms| - j
  {
    var e := SegmentEnd(text, ms, j);
    if j + 1 < |ms| {
      SpansTile(text, ms, j + 1);
      assert text[ms[j].start..e] + text[e..] == text[ms[j].start..];
    } else {
      assert e == |text|;
    }
  }

  /** A day name never equals "Full Plan", which holds a space. */
  lemma DayNameNotFullPlan(text: string, m: HeaderMatch)
    requires IsHeaderMatch(text, m)
    ensures m.nameStart <= m.stop <= |text| && DayName(text, m) != FullPlanKey
  {
    var name := DayName(text, m);
    DayNameShape(text, m);
    if |name| == |FullPlanKey| {
      assert FullPlanKey[4] == ' ';
      assert IsLower(name[4]);
    }
  }

  /** So "Full Plan" is none of the day names. */
  lemma {:induction false} NotFullPlanKey(text: string, ms: seq<HeaderMatch>, n: nat)
    requires Ordered(text, 0, ms) && Segmented(text, ms) && n <= |ms|
    ensures FullPlanKey !in DayNames(text, ms, n)
  {
    if n > 0 {
      NotFullPlanKey(text, ms, n - 1);
      DayNameNotFullPlan(text, ms[n - 1]);
    }
  }
}
