# foodplanner core in Dafny

This project models the deterministic text and list processing inside the
two Streamlit nutrition apps (`foodlogger.py` and `main.py`):

- the day splitter `parse_meal_plan_by_day`. It scans the generated meal
  plan for `DAY n: NAME` headers the way `re.finditer` does, and builds the
  insertion-ordered dict of day segments, falling back to
  `{"Full Plan": text}`;
- the nutrient part of `plot_nutrient_levels_for_day`. It reads the
  first `<Name>: <number>` mention of each of the five nutrients, parses the
  token the way `float` does, lists the missing nutrients, chooses between bar
  chart and placeholder, and builds the suggestion text;
- the food log: `log_food` appends, and `plot_food_log` totals five keys;
- the prompt string of `generate_meal_plan`, with the dietary default set
  by the sidebar;
- the label filter and the result branches of `recognize_food`.

Modules, one per file:

- `Wrappers`: `Option`, `Result`.
- `Text`: ASCII character classes, case mapping, `capitalize`, `strip`,
  substring search, `join`.
- `Sequences`: filter, distinct-in-first-seen-order.
- `OrderedMaps`: a Python dict, as a key sequence plus a map.
- `DayHeaders`: the header regular expression and `finditer`.
- `PlanParser`: the day splitter.
- `Decimals`: decimal numerals and `float` of a `[\d\.]+` token.
- `Nutrients`, `FoodLogging`, `Prompt`, `FoodRecognition`: the operations above.

State the source changes in place is modelled imperatively:

- the day splitter fills its dict in a loop;
- the nutrient dict and the suggestion text are filled in loops;
- the food log is a class whose method appends;
- the totals are updated in nested loops;
- the prompt is built with `+=`;
- the kept labels are appended in a loop.

Each method is proved against a specification function, and the
properties are lemmas about those functions.

Facts about the code that shape the model:

- The header pattern `DAY\s+\d+\s*:\s*([A-Z]+)` needs a colon after the
  day number (foodlogger.py:74).
- A day's segment starts at its own header's start, so the stored text
  begins with the header itself (foodlogger.py:79-81).
- A segment ends only at the next header's start or at the end of the
  text; nothing else cuts it short (foodlogger.py:80-81).
- The nutrient token `[\d\.]+` is any run of digits and dots, such as
  `1.2.3`; `float` then accepts or refuses it (foodlogger.py:100-106).

Numbers are exact: nutrient values are decimals (`units / 10^scale`), and
food-log amounts and totals are reals.

## Model

| member | source | states |
|---|---|---|
| DayHeaders.MatchAt | foodlogger.py:74 | A match found at `i` starts at `i`, its group begins after `DAY` and lies inside the text |
| DayHeaders.MatchAtSound | foodlogger.py:74 | A match found at `i` has the pattern's shape (`DAY` in any case, blanks, digits, blanks, colon, blanks, a maximal run of letters), and its group lies inside the text |
| DayHeaders.MatchAtComplete | foodlogger.py:74 | Wherever the pattern's shape holds at `s`, the scan at `s` returns exactly that match |
| DayHeaders.Genuine | main.py:71 | Any match of the pattern is the one the scan returns at its start, so the pattern matches at a position iff the scan succeeds there |
| DayHeaders.HeaderParts | foodlogger.py:74 | A match begins with `DAY` in any case, and its group 1 is a non-empty run of letters |
| DayHeaders.FindHeadersOrdered | foodlogger.py:75 | `FindHeaders` (`re.finditer`): the matches found are genuine, lie at or after the start position, and come left to right without overlapping |
| DayHeaders.FindHeadersIsScan | foodlogger.py:75 | The list is a complete scan: every position where the pattern matches, outside earlier matches, starts a listed match |
| DayHeaders.ScanUnique | main.py:74 | Only one list is such a scan, so the `finditer` result is determined |
| DayHeaders.NoHeadersIff | foodlogger.py:84-85 | No match is found iff the pattern matches at no position of the text |
| DayHeaders.ExampleHeaderMatch | foodlogger.py:44 | The example header `DAY 1: MONDAY` in the prompt's instructions is matched from its start to its end, group 1 at positions 7 to 13 |
| PlanParser.ParseMealPlanByDay | foodlogger.py:68-87 | The result is `DayPlan(text)`. With no header it is the single entry `Full Plan` holding the whole unstripped text. Otherwise the keys are the capitalized names in first-seen order, one per distinct name, each holding the stripped segment of its last match, and `Full Plan` is not a key (main.py:62-97 is the same code) |
| PlanParser.AssignDays | foodlogger.py:77-82 | The loop assigns `days[name] = segment` for each match in turn: its result is the fold of the assignments over the matches' names and segments |
| PlanParser.DayName | foodlogger.py:78 | `match.group(1).capitalize()` is as long as group 1 |
| PlanParser.DayNameAt | foodlogger.py:78 | The `j`-th name assigned is the capitalized group 1 of match `j` |
| PlanParser.DaySegmentAt | foodlogger.py:79-81 | The `j`-th segment assigned is `Segment`, the stripped slice from match `j`'s start to the next match's start or the end of the text |
| PlanParser.SegmentEnd | foodlogger.py:80 | The end position lies after the match's header and inside the text |
| PlanParser.FindHeadersSegmented | foodlogger.py:75 | The matches lie inside the text, each header ending before the next match starts |
| PlanParser.ParseOutcome | foodlogger.py:84-85 | The loop leaves the dict empty iff there are no matches |
| PlanParser.DaysPlan | foodlogger.py:77-82 | When some header is found, the dict the loop leaves has the keys in first-seen order, each holding the stripped segment of its last match, one entry per distinct name, and no `Full Plan` key |
| PlanParser.FallbackPlan | foodlogger.py:84-85 | When no header is found, `{"Full Plan": text}` has the stated shape |
| PlanParser.DayPlanSpec | foodlogger.py:68-87 | `DayPlan`, the dict the function returns, has the stated shape for every text |
| PlanParser.DayNameShape | foodlogger.py:78 | A day key is non-empty, with an upper-case first letter and lower-case letters after it |
| PlanParser.SegmentStartsWithHeader | foodlogger.py:79-81 | `Segment`: the stripped segment of a day begins with that day's own header text |
| PlanParser.SpansTile | main.py:79-88 | The raw segments, each running to the next header's start or to the end, concatenate to the text from the first header on |
| PlanParser.NotFullPlanKey | foodlogger.py:84-85 | `Full Plan` is never a day key |
| Text.Lower | main.py:121 | `str.lower()`: same length, each character lower-cased (ASCII) |
| Text.Capitalize | foodlogger.py:78 | `str.capitalize()`: same length, the first character upper-cased and every later one lower-cased |
| Text.CapitalizeIgnoresCase | foodlogger.py:78 | Two names equal up to case capitalize alike (`MONDAY`, `monday` become `Monday`) |
| Text.StripSpec | foodlogger.py:81 | `Strip`, `str.strip()`: the result is the slice of the input with only whitespace outside it, and it neither starts nor ends with whitespace |
| Text.StripKeepsNonBlankPrefix | foodlogger.py:81 | Stripping a text that starts with a piece whose first and last characters are not blank keeps that piece at the front |
| Text.StripIdempotent | foodlogger.py:211 | Stripping a stripped text changes nothing |
| Sequences.DistinctFirstSeenOrder | foodlogger.py:82 | The dict's keys come in the order in which each name is first seen |
| Sequences.DistinctCount | foodlogger.py:82 | The distinct names are as many as the set of names |
| OrderedMaps.Empty | foodlogger.py:73 | `daily_plans = {}`: a valid dict with no key and no entry |
| OrderedMaps.Singleton | foodlogger.py:85 | `{"Full Plan": meal_plan_text}`: a valid dict whose only key holds the given value |
| OrderedMaps.OrderedMap.Put | foodlogger.py:82 | `d[k] = v` sets the value and keeps the key's position, or appends a new key at the end |
| OrderedMaps.AssignedPut | foodlogger.py:82 | One more assignment `d[k] = v` extends the record of assignments: first-assigned key order, each key holding its last value |
| OrderedMaps.AssignPrefixAssigned | foodlogger.py:77-82 | After the first `n` assignments of a loop, the keys are in first-assigned order, each holding the value of its last assignment so far |
| OrderedMaps.AssignedSize | main.py:89 | The dict has as many entries as there are distinct assigned keys, and none iff nothing was assigned |
| OrderedMaps.AssignAll | foodlogger.py:77-85 | After all the assignments the dict is their record, with one entry per distinct key and none iff there was no assignment |
| Decimals.NatToDigits | foodlogger.py:35 | `str(n)`: digits only, no leading zero, denoting `n` |
| Decimals.ParseDecimal | foodlogger.py:104 | `float` of a digits-and-dots token succeeds iff it has at most one dot and at least one digit. The value is the integer part followed by the fraction digits, scaled by their count |
| Decimals.ParseDecimalValue | foodlogger.py:104 | The parsed value is integer part plus fraction digits over ten to their count |
| Decimals.ParseNatToDigits | foodlogger.py:104 | Parsing the numeral of `n` gives `n` back |
| Decimals.ParseDecimalExamples | foodlogger.py:103-106 | `42` and `4` parse; `1.2.3` is refused |
| Nutrients.NutrientsDistinct | foodlogger.py:96 | The five nutrients are distinct |
| Nutrients.NutrientAt | foodlogger.py:100 | A match of `<name>\s*:\s*([\d\.]+)` yields a non-empty digits-and-dots token |
| Nutrients.NutrientAtComplete | foodlogger.py:100 | Wherever the text has the pattern's shape at a position (name in any case, blanks, colon, blanks, a maximal non-empty digits-and-dots run), the match there reads exactly that run |
| Nutrients.NutrientAtSound | foodlogger.py:100 | A token the scan returns at a position comes from the pattern's shape there: the name in any case, blanks, a colon, blanks, and the maximal non-empty digits-and-dots run, which is the token |
| Nutrients.Search | foodlogger.py:101 | `re.search` yields the leftmost match at or after the start, with none before it; when it yields nothing there is no match anywhere |
| Nutrients.ReadingFirstMatch | foodlogger.py:99-106 | `Reading`: the recorded value of a nutrient is `float` of the token of its first match |
| Nutrients.FirstMentionDecides | foodlogger.py:101-106 | If the first match's token is refused by `float`, the nutrient is absent, whatever later mentions say |
| Nutrients.SecondMentionOfTwo | foodlogger.py:101 | The name matches in any case (`fat: 4` matches `Fat`) |
| Nutrients.MalformedFirstMention | foodlogger.py:101-106 | In `Fat: 1.2.3, fat: 4` fat is absent, although the later mention alone would read 4 |
| Nutrients.FoundIn | foodlogger.py:99-106 | A nutrient is listed as found iff its first match parses |
| Nutrients.ExtractReadings | foodlogger.py:99-106 | For any list of distinct names, the loop leaves as keys the names that have a reading, in list order, each holding its reading |
| Nutrients.ExtractNutrients | foodlogger.py:96-106 | The dict's keys are the found nutrients in the fixed order, each holding its reading |
| Nutrients.FoundInStep | foodlogger.py:99-106 | Each further name joins the found ones exactly when it has a reading, and was not among them before |
| Nutrients.Missing | foodlogger.py:108 | A nutrient is missing iff it is not a key of the dict; the missing list keeps the fixed order |
| Nutrients.NotFoundIn | foodlogger.py:108 | A nutrient is unread iff it has no reading |
| Nutrients.MissingIsNotFound | foodlogger.py:108 | The missing list equals the list of nutrients without a reading |
| Nutrients.FoundPartition | foodlogger.py:96-108 | Found and missing split the five nutrients: each is in exactly one list, and their sizes add to five |
| Nutrients.NutrientChart | foodlogger.py:111-118 | Bars are drawn iff the dict is non-empty, labelled with its keys in order and as tall as their values, titled with the day; otherwise the placeholder text is shown |
| Nutrients.SuggestionsCoverNutrients | foodlogger.py:122-128 | `Suggestion`: the table has a sentence for exactly the five nutrients, so a missing nutrient never gets the default |
| Nutrients.LinesAppend | foodlogger.py:130-131 | `Lines`: the lines of two lists are the lines of the first, then the second |
| Nutrients.LineOfEach | foodlogger.py:130-131 | Each missing nutrient has its own `Line`, `- N: <sentence>`, with the lines of earlier nutrients before it and of later ones after it |
| Nutrients.SuggestionText | foodlogger.py:120-131 | The text is empty when nothing is missing; otherwise it is `Missing Nutrients:` and a newline, then one line per missing nutrient in order |
| Nutrients.PlotNutrientLevelsForDay | foodlogger.py:89-131 | Data is shown iff some nutrient has a reading, with the found nutrients as bars in the fixed order. The suggestion is empty iff every nutrient has a reading, and otherwise lists the unread ones in the fixed order |
| FoodLogging.ParseSigned | foodlogger.py:211 | `float` of a stripped string succeeds iff, after an optional sign, it is a numeral with at least one digit and at most one dot |
| FoodLogging.CoerceNatText | foodlogger.py:211 | `Coerce`, `float` of a value: a string holding the numeral of `n`, with or without a minus sign, adds `n` or `-n` |
| FoodLogging.CoerceIgnoresBlanks | foodlogger.py:211 | `Coerce` reads a string the same with or without its surrounding blanks |
| FoodLogging.TotalConcat | foodlogger.py:208-213 | `Total`, the sum of the entries' `Contribution`s: totals add up over consecutive parts of the log |
| FoodLogging.UncoercibleEntry | foodlogger.py:210-213 | `Contribution`, `float(entry.get(key, 0))` or 0 when it raises: an entry with no value that `float` accepts leaves every total unchanged |
| FoodLogging.FoodLog.constructor | foodlogger.py:193-194 | The log starts empty |
| FoodLogging.FoodLog.LogFood | foodlogger.py:189-195 | Exactly one entry is appended at the end and earlier entries stay; every total grows by that entry's contribution |
| FoodLogging.ZeroTotals | foodlogger.py:206 | Every key starts at 0, in the order of `keys` |
| FoodLogging.AddEntry | foodlogger.py:209-213 | The inner loop adds the entry's contribution to every key's total: `float(entry.get(key, 0))`, or 0 when that raises |
| FoodLogging.SumByKeys | foodlogger.py:206-213 | After the outer loop every key holds the sum of its contributions over the whole log |
| FoodLogging.AggregateFoodLog | foodlogger.py:197-213 | An empty log gives "no food logged". Otherwise the five keys come in order, each holding the sum of its values that `float` accepts; absent keys and refused values add 0 |
| Prompt.DietaryTags | main.py:228 | The chosen tags, or `["None"]` when none was chosen; never empty |
| Prompt.MealPlanPrompt | main.py:24-39 | The prompt is the opening, the dietary part, the cycle clause when it applies, then the goal and fixed instructions (foodlogger.py:34-46 builds the same prompt) |
| Prompt.CycleClauseSent | main.py:31-32 | For a female user whose phase is not `Not Applicable`, `menstrual cycle phase <p>, ` follows the dietary part |
| Prompt.CycleClauseNotSent | main.py:31-32 | Otherwise the dietary part runs straight into the goal, and the clause is not there |
| Prompt.CycleClauseIff | foodlogger.py:39-40 | The clause follows the dietary part iff the user is female and the phase is known |
| Prompt.PhaseIgnored | main.py:31-32 | When the clause is not sent, the phase does not affect the prompt |
| Prompt.DietaryInPrompt | main.py:27 | Every dietary tag appears in the prompt |
| Prompt.NoTagsChosen | main.py:228 | With no tag chosen the prompt says `dietary preferences None, ` right after the opening |
| Text.JoinAppend | main.py:27 | `Join`, `sep.join(parts)`: joining two non-empty lists is joining each, with the separator between |
| Text.JoinHasEach | main.py:27 | Every part occurs in the joined text |
| FoodRecognition.AnyKeywordIn | main.py:121 | `any(keyword in text ...)` holds iff some keyword occurs in the text |
| FoodRecognition.FoodLabels | main.py:115-126 | The kept labels are exactly the food labels, in input order |
| FoodRecognition.KeptExactlyFood | main.py:119-122 | `IsFood`: a label is kept iff a keyword occurs in its lower-cased description or its score is above 0.7 |
| FoodRecognition.KeptInOrder | main.py:119-126 | The kept labels sit at increasing positions of the input, exactly at the positions of the food labels |
| FoodRecognition.KeywordIgnoresCase | main.py:121 | `Hot DISH` with score 0.1 is a food label |
| FoodRecognition.Descriptions | main.py:133 | `food_items` lists the descriptions of the kept labels, in order |
| FoodRecognition.RecognizeFood | main.py:115-145 | A failed detection gives `Error recognizing food: ` and the message. With no food label, the fixed "No food items detected…" message is returned and nothing is looked up. Otherwise the food labels and their descriptions, in detected order |

## Left out

- HTTP and SDK calls are not modelled: the meal-plan request, the Mistral
  client, the Google Vision client and `get_food_nutrition`. They are
  foreign I/O. The label-detection response is an input to
  `RecognizeFood`, which returns the descriptions to look up instead of the
  lookup's answer.
- The response handling of `generate_meal_plan` and its error mapping are
  not modelled, since they are I/O.
- Streamlit and `st.session_state` are not modelled. The food log is an
  explicit object whose constructor is the lazy creation on first use. The
  profile is a value; only its dietary default is kept.
- matplotlib drawing is not modelled. Only the choice between bars and the
  placeholder text, and what the bars show, are kept.
- `base64`, `json.loads` and the `f"{score:.2f}"` formatting are not
  modelled. A kept label keeps its score as a number.
- IEEE floating point is not modelled. Values and sums are exact decimals
  or reals, so rounding, `inf` and `nan` do not arise.
- Unicode is not modelled. Whitespace is the ASCII part of `str.isspace`,
  and letters, digits, case mapping and `lower()` are ASCII only.
- FoodLogging.ParseSigned: refuses strings that `float` would accept in
  other notations (exponents, `inf`, `nan`, underscores). Such values count
  as 0 in the model, because only decimal numerals are modelled.
- Log entries that are not dicts are excluded by the types. In the source
  they would raise `AttributeError` inside `plot_food_log`.
- Prompt.CycleClauseNotSent: the "only if" half of the clause property says
  the clause is not at its place in the prompt, not that the phrase occurs
  nowhere in it. The model's `Profile` takes arbitrary strings for gender,
  activity, phase and goal; the sidebar's fixed option lists are not
  modelled, so the lemma states absence only at the clause's place.
- The commented-out recognition code in `main.py` is dead code and is not
  modelled.
- PlanParser.ParseMealPlanByDay: the fallback is stated as "the scan finds
  no header". DayHeaders.NoHeadersIff links that to "the pattern matches at
  no position".
