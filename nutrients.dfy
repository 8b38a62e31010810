/** The nutrient part of `plot_nutrient_levels_for_day` (foodlogger.py:89-131):
    read the five fixed nutrients out of a day's plan text, list the missing
    ones, decide between the bar chart and its placeholder, and build the
    suggestion text. */
module Nutrients {
  import opened Wrappers
  import opened Text
  import opened Sequences
  import opened OrderedMaps
  import opened Decimals

  /** `expected_nutrients`, in their fixed order. */
  const ExpectedNutrients: seq<string> := ["Calories", "Protein", "Carbs", "Fat", "Fiber"]

  lemma NutrientsDistinct()
    ensures NoDuplicates(ExpectedNutrients)
  {
  }

  /** `re.match` of `<name>\s*:\s*([\d\.]+)`, case-insensitive, at `i`: the
      name in any case, blanks, a colon, blanks, then the longest run of
      digits and dots, which is group 1 and must not be empty. */
  function NutrientAt(text: string, name: string, i: nat): (tok: Option<string>)
    requires i <= |text|
    ensures tok.Some? ==> |tok.value| > 0 && IsNumeralText(tok.value)
  {
    if i + |name| <= |text| && Lower(text[i..i + |name|]) == Lower(name) then
      var a := SpanEnd(text, i + |name|, Space);
      if a < |text| && text[a] == ':' then
        var b := SpanEnd(text, a + 1, Space);
        var c := SpanEnd(text, b, Numeral);
        SpanEndRun(text, b, Numeral);
        assert forall k :: 0 <= k < c - b ==> text[b..c][k] == text[b + k];
        if b < c then Some(text[b..c]) else None
      else None
    else None
  }

  predicate NutrientMatchesAt(text: string, name: string, i: nat)
    requires i <= |text|
  {
    NutrientAt(text, name, i).Some?
  }

  /** `re.search` from position `from`: the leftmost position at or after it
      where the pattern matches, with the token matched there. */
  function Search(text: string, name: string, from: nat): (r: Option<(nat, string)>)
    requires from <= |text|
    ensures r.Some? ==> from <= r.value.0 <= |text| && NutrientAt(text, name, r.value.0) == Some(r.value.1)
    ensures r.Some? ==> forall k :: from <= k < r.value.0 ==> !NutrientMatchesAt(text, name, k)
    ensures r.None? ==> forall k :: from <= k <= |text| ==> !NutrientMatchesAt(text, name, k)
    decreases |text| - from
  {
    match NutrientAt(text, name, from)
    case Some(tok) => Some((from, tok))
    case None => if from == |text| then None else Search(text, name, from + 1)
  }

  /** The value recorded for `name`: `float` of the token of the FIRST match,
      or nothing when there is no match or `float` refuses the token. */
  function Reading(text: string, name: string): Option<Decimal> {
    match Search(text, name, 0)
    case None => None
    case Some((_, tok)) => ParseDecimal(tok)
  }

  /** Method `ExtractNutrients` reads `name`: the first match decides, a later
      well-formed mention never rescues a malformed first one. */
  lemma ReadingFirstMatch(text: string, name: string, i: nat, tok: string)
    requires i <= |text| && NutrientAt(text, name, i) == Some(tok)
    requires forall k :: 0 <= k < i ==> !NutrientMatchesAt(text, name, k)
    ensures Reading(text, name) == ParseDecimal(tok)
  {
    FirstSearch(text, name, 0, i);
  }

  lemma {:induction false} FirstSearch(text: string, name: string, from: nat, i: nat)
    requires from <= i <= |text| && NutrientAt(text, name, i).Some?
    requires forall k :: from <= k < i ==> !NutrientMatchesAt(text, name, k)
    ensures Search(text, name, from) == Some((i, NutrientAt(text, name, i).value))
    decreases i - from
  {
    if from < i {
      assert !NutrientMatchesAt(text, name, from);
      FirstSearch(text, name, from + 1, i);
    }
  }

  /** The nutrients among `names` that have a reading, in order. */
  function FoundIn(text: string, names: seq<string>): (r: seq<string>)
    ensures forall n :: n in r <==> n in names && Reading(text, n).Some?
  {
    if names == [] then []
    else
      var n, rest := names[|names| - 1], FoundIn(text, names[..|names| - 1]);
      assert names == names[..|names| - 1] + [n];
      if Reading(text, n).Some? then rest + [n] else rest
  }

  /** One more name: its reading decides whether it joins the found ones,
      and it was not among them before. */
  lemma FoundInStep(text: string, names: seq<string>, i: nat)
    requires NoDuplicates(names) && i < |names|
    ensures names[i] !in FoundIn(text, names[..i])
    ensures FoundIn(text, names[..i + 1]) ==
      if Reading(text, names[i]).Some? then FoundIn(text, names[..i]) + [names[i]] else FoundIn(text, names[..i])
  {
    assert names[..i + 1][..i] == names[..i];
    assert names[i] !in names[..i];
  }

  /** The loop of `plot_nutrient_levels_for_day` filling `nutrient_values`,
      over distinct names: the keys are the names that have a reading, in
      order, each holding its reading. */
  method ExtractReadings(text: string, names: seq<string>) returns (values: OrderedMap<string, Decimal>)
    requires NoDuplicates(names)
    ensures values.Valid()
    ensures values.keys == FoundIn(text, names)
    ensures forall n :: n in values.entries ==> Reading(text, n) == Some(values.entries[n])
  {
    values := Empty();
    for i := 0 to |names|
      invariant values.Valid()
      invariant values.keys == FoundIn(text, names[..i])
      invariant forall n :: n in values.entries ==> Reading(text, n) == Some(values.entries[n])
    {
      var name := names[i];
      FoundInStep(text, names, i);
      var m := Search(text, name, 0);
      if m.Some? {
        var parsed := ParseDecimal(m.value.1);
        if parsed.Some? {
          values := values.Put(name, parsed.value);
        }
      }
    }
    assert names[..|names|] == names;
  }

  /** `nutrient_values` for the five expected nutrients. */
  method ExtractNutrients(text: string) returns (values: OrderedMap<string, Decimal>)
    ensures values.Valid()
    ensures values.keys == FoundIn(text, ExpectedNutrients)
    ensures forall n :: n in values.entries ==> Reading(text, n) == Some(values.entries[n])
  {
    NutrientsDistinct();
    values := ExtractReadings(text, ExpectedNutrients);
  }

  /** `missing_nutrients`: the nutrients of `names` without an entry, in
      order. */
  function Missing(names: seq<string>, found: map<string, Decimal>): (r: seq<string>)
    ensures forall n :: n in r <==> n in names && n !in found
  {
    if names == [] then []
    else
      var n, rest := names[|names| - 1], Missing(names[..|names| - 1], found);
      assert names == names[..|names| - 1] + [n];
      if n !in found then rest + [n] else rest
  }

  /** The nutrients among `names` without a reading, in order. */
  function NotFoundIn(text: string, names: seq<string>): (r: seq<string>)
    ensures forall n :: n in r <==> n in names && !Reading(text, n).Some?
  {
    if names == [] then []
    else
      var n, rest := names[|names| - 1], NotFoundIn(text, names[..|names| - 1]);
      assert names == names[..|names| - 1] + [n];
      if !Reading(text, n).Some? then rest + [n] else rest
  }

  /** The missing list computed from the dict is the list of nutrients
      without a reading. */
  lemma {:induction false} MissingIsNotFound(text: string, names: seq<string>, found: map<string, Decimal>)
    requires forall n :: n in names ==> (n in found <==> Reading(text, n).Some?)
    ensures Missing(names, found) == NotFoundIn(text, names)
  {
    if names != [] {
      var init := names[..|names| - 1];
      assert forall n :: n in init ==> n in names;
      MissingIsNotFound(text, init, found);
      assert names[|names| - 1] in names;
    }
  }

  /** Found and not-found split `names`: each name is in exactly one of
      them, both keep the order of `names`, and their sizes add up. */
  lemma {:induction false} FoundPartition(text: string, names: seq<string>)
    ensures forall n :: n in names ==> (n in FoundIn(text, names) <==> n !in NotFoundIn(text, names))
    ensures |FoundIn(text, names)| + |NotFoundIn(text, names)| == |names|
  {
    if names != [] {
      FoundPartition(text, names[..|names| - 1]);
    }
  }

  /** What the bar chart shows, or the placeholder text when no nutrient was
      found. */
  datatype Chart =
    | BarChart(title: string, labels: seq<string>, amounts: seq<Decimal>)
    | Placeholder(message: string)

  const NoDataMessage: string := "No nutrient data found"

  /** The chart decision of `plot_nutrient_levels_for_day`: bars labelled with
      the found nutrients in dict order, each as tall as its value, when the
      dict is non-empty; otherwise only the placeholder text. */
  function NutrientChart(day: string, values: OrderedMap<string, Decimal>): (c: Chart)
    requires values.Valid()
    ensures c.BarChart? <==> values.keys != []
    ensures c.BarChart? ==>
      && c.title == "Nutrient Levels for " + day
      && c.labels == values.keys
      && |c.amounts| == |c.labels|
      && forall i :: 0 <= i < |c.labels| ==> c.labels[i] in values.entries && c.amounts[i] == values.entries[c.labels[i]]
    ensures c.Placeholder? ==> c.message == NoDataMessage
  {
    values.Size();
    if |values.entries| > 0 then
      BarChart("Nutrient Levels for " + day, values.keys,
               seq(|values.keys|, i requires 0 <= i < |values.keys| && values.Valid() => values.entries[values.keys[i]]))
    else Placeholder(NoDataMessage)
  }

  const DefaultSuggestion: string := "Consider a nutrient-rich snack."

  /** The `suggestions` table. */
  const Suggestions: map<string, string> := map[
    "Calories" := "Consider adding an energy-rich snack like a granola bar.",
    "Protein" := "Consider a protein snack such as Greek yogurt or a protein shake.",
    "Carbs" := "Consider a carb-based snack like a piece of fruit or whole grain crackers.",
    "Fat" := "Consider a healthy fat source like nuts or avocado toast.",
    "Fiber" := "Consider fiber-rich options like vegetables or whole grains."
  ]

  /** `suggestions.get(nutrient, 'Consider a nutrient-rich snack.')`. */
  function Suggestion(name: string): string {
    if name in Suggestions then Suggestions[name] else DefaultSuggestion
  }

  /** The table has a sentence for exactly the five nutrients, so a missing
      nutrient never gets the default sentence. */
  lemma SuggestionsCoverNutrients()
    ensures Suggestions.Keys == set n | n in ExpectedNutrients
    ensures forall n :: n in ExpectedNutrients ==> Suggestion(n) == Suggestions[n]
  {
  }

  const MissingHeader: string := "Missing Nutrients:\n"

  /** One line of the suggestion text. */
  function Line(name: string): string {
    "- " + name + ": " + Suggestion(name) + "\n"
  }

  /** The lines for `names`, in order. */
  function Lines(names: seq<string>): string {
    if names == [] then "" else Lines(names[..|names| - 1]) + Line(names[|names| - 1])
  }

  /** The lines of two lists are the lines of the first, then of the second. */
  lemma {:induction false} LinesAppend(a: seq<string>, b: seq<string>)
    ensures Lines(a + b) == Lines(a) + Lines(b)
    decreases |b|
  {
    if b != [] {
      var b' := b[..|b| - 1];
      assert (a + b)[..|a + b| - 1] == a + b';
      assert (a + b)[|a + b| - 1] == b[|b| - 1];
      LinesAppend(a, b');
    } else {
      assert a + b == a;
    }
  }

  lemma LinesSingle(name: string)
    ensures Lines([name]) == Line(name)
  {
    assert [name][..0] == [];
  }

  /** Every listed nutrient has its own line in the text, in list order:
      the lines before it, its line, then the lines after it. */
  lemma LineOfEach(names: seq<string>, i: nat)
    requires i < |names|
    ensures Lines(names) == Lines(names[..i]) + Line(names[i]) + Lines(names[i + 1..])
  {
    var pre, x, post := names[..i], names[i], names[i + 1..];
    SplitAround(names, i);
    LinesAppend(pre + [x], post);
    LinesAppend(pre, [x]);
    LinesSingle(x);
  }

  lemma LinesStep(names: seq<string>, i: nat)
    requires i < |names|
    ensures Lines(names[..i + 1]) == Lines(names[..i]) + Line(names[i])
  {
    assert names[..i + 1][..i] == names[..i];
  }

  /** The suggestion text: empty when nothing is missing, otherwise the
      header and one line per missing nutrient, in order, built by `+=`. */
  method SuggestionText(missing: seq<string>) returns (text: string)
    ensures missing == [] ==> text == ""
    ensures missing != [] ==> text == MissingHeader + Lines(missing)
  {
    text := "";
    if missing != [] {
      text := MissingHeader;
      for i := 0 to |missing|
        invariant text == MissingHeader + Lines(missing[..i])
      {
        LinesStep(missing, i);
        AppendAssoc(MissingHeader, Lines(missing[..i]), Line(missing[i]));
        text := text + Line(missing[i]);
      }
      assert missing[..|missing|] == missing;
    }
  }

  /** The whole of `plot_nutrient_levels_for_day` apart from drawing: the
      chart shows data exactly when some nutrient has a reading, its bars are
      the found nutrients in the fixed order, and the suggestion text is empty
      exactly when every nutrient has a reading and otherwise lists the
      missing ones in the fixed order. */
  method PlotNutrientLevelsForDay(day: string, dayPlanText: string) returns (chart: Chart, suggestion: string)
    ensures chart.BarChart? <==> exists n :: n in ExpectedNutrients && Reading(dayPlanText, n).Some?
    ensures chart.BarChart? ==> chart.labels == FoundIn(dayPlanText, ExpectedNutrients)
    ensures chart.Placeholder? ==> chart.message == NoDataMessage
    ensures suggestion == "" <==> forall n :: n in ExpectedNutrients ==> Reading(dayPlanText, n).Some?
    ensures suggestion != "" ==> suggestion == MissingHeader + Lines(NotFoundIn(dayPlanText, ExpectedNutrients))
  {
    var values := ExtractNutrients(dayPlanText);
    var missing := Missing(ExpectedNutrients, values.entries);
    MissingIsNotFound(dayPlanText, ExpectedNutrients, values.entries);
    chart := NutrientChart(day, values);
    suggestion := SuggestionText(missing);
    if values.keys != [] {
      assert values.keys[0] in FoundIn(dayPlanText, ExpectedNutrients);
    }
    if missing != [] {
      assert missing[0] in NotFoundIn(dayPlanText, ExpectedNutrients);
      assert |MissingHeader + Lines(missing)| > 0;
    }
  }

  /** A nutrient whose first mention holds a token `float` refuses is
      absent, whatever later mentions hold. */
  lemma FirstMentionDecides(text: string, name: string, i: nat)
    requires i <= |text| && NutrientMatchesAt(text, name, i)
    requires forall k :: 0 <= k < i ==> !NutrientMatchesAt(text, name, k)
    requires ParseDecimal(NutrientAt(text, name, i).value).None?
    ensures Reading(text, name).None?
  {
    ReadingFirstMatch(text, name, i, NutrientAt(text, name, i).value);
  }

  const TwoMentions: string := "Fat: 1.2.3, fat: 4"

  lemma FirstMentionOfTwo()
    ensures NutrientAt(TwoMentions, "Fat", 0) == Some("1.2.3")
  {
    var text := TwoMentions;
    assert text[0..3] == "Fat";
    assert text[5..10] == "1.2.3";
    NutrientAtComplete(text, "Fat", 0, 3, 5, 10);
  }

  /** The name matches in any case. */
  lemma SecondMentionOfTwo()
    ensures NutrientAt(TwoMentions, "Fat", 12) == Some("4")
  {
    var text := TwoMentions;
    assert text[12..15] == "fat";
    assert Lower("fat") == Lower("Fat");
    assert text[17..18] == "4";
    NutrientAtComplete(text, "Fat", 12, 15, 17, 18);
  }

  /** The declarative reading of `<name>\s*:\s*([\d\.]+)` at `i`: the name
      in any case up to `i + |name|`, blanks up to the colon at `a`, blanks
      up to `b`, and the longest run of digits and dots from `b` to `c`, not
      empty. */
  ghost predicate NutrientShape(text: string, name: string, i: int, a: int, b: int, c: int) {
    && 0 <= i && i + |name| <= a < b <= c <= |text| && b < c
    && Lower(text[i..i + |name|]) == Lower(name)
    && (forall k :: i + |name| <= k < a ==> IsSpace(text[k]))
    && text[a] == ':'
    && (forall k :: a + 1 <= k < b ==> IsSpace(text[k]))
    && (forall k :: b <= k < c ==> IsNumeralChar(text[k]))
    && (c < |text| ==> !IsNumeralChar(text[c]))
  }

  /** Wherever the text has the pattern's shape at `i`, the match at `i`
      reads `text[b..c]`. */
  lemma NutrientAtComplete(text: string, name: string, i: nat, a: nat, b: nat, c: nat)
    requires NutrientShape(text, name, i, a, b, c)
    ensures NutrientAt(text, name, i) == Some(text[b..c])
  {
    SpanEndOfRun(text, i + |name|, a, Space);
    SpanEndOfRun(text, a + 1, b, Space);
    SpanEndOfRun(text, b, c, Numeral);
  }

  /** Conversely, a token the match at `i` reads sits where the pattern's
      shape holds: together with `NutrientAtComplete`, the scan is exact. */
  lemma NutrientAtSound(text: string, name: string, i: nat)
    requires i <= |text| && NutrientAt(text, name, i).Some?
    ensures exists a, b, c :: NutrientShape(text, name, i, a, b, c) && NutrientAt(text, name, i).value == text[b..c]
  {
    var a := SpanEnd(text, i + |name|, Space);
    var b := SpanEnd(text, a + 1, Space);
    var c := SpanEnd(text, b, Numeral);
    SpanEndRun(text, i + |name|, Space);
    SpanEndRun(text, a + 1, Space);
    SpanEndRun(text, b, Numeral);
    assert NutrientShape(text, name, i, a, b, c);
  }

  /** `Fat: 1.2.3` before `fat: 4` leaves fat unread, although the second
      mention alone would read 4. */
  lemma MalformedFirstMention()
    ensures NutrientAt(TwoMentions, "Fat", 12) == Some("4")
    ensures ParseDecimal("4") == Some(Decimal(4, 0))
    ensures Reading(TwoMentions, "Fat") == None
  {
    FirstMentionOfTwo();
    SecondMentionOfTwo();
    ParseDecimalExamples();
    FirstMentionDecides(TwoMentions, "Fat", 0);
  }
}
