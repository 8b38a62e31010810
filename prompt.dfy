/** The prompt that `generate_meal_plan` sends for a user profile
    (foodlogger.py:33-46, main.py:23-39), and the profile the sidebar builds
    (main.py:222-231). */
module Prompt {
  import opened Text
  import opened Decimals

  /** The `profile` dict. The sidebar's number inputs only give whole
      numbers, so age, weight and height are natural numbers. */
  datatype Profile = Profile(
    age: nat,
    gender: string,
    weight: nat,
    height: nat,
    activity: string,
    dietary: seq<string>,
    menstrualCycle: string,
    fitnessGoal: string)

  const NotApplicable: string := "Not Applicable"

  /** The fixed pieces of the prompt, in order. */
  const Intro: string := "Generate a personalized 7-day meal plan for a "
  const YearOld: string := " year old "
  const WithWeight: string := " with weight "
  const KgHeight: string := "kg, height "
  const CmActivity: string := "cm, activity level "
  const DietaryLead: string := "dietary preferences "
  const CycleLead: string := "menstrual cycle phase "
  const GoalLead: string := "and a fitness goal of "
  const Breakdown: string := "Include macronutrient and micronutrient breakdown, hydration tips, and balanced meals for the day. "
  const HeaderFormat: string := "Format each day clearly with 'DAY X: DAY_NAME' as a header (e.g., 'DAY 1: MONDAY'). "
  const Sections: string := "For each day include sections for Breakfast, Lunch, Dinner, and Snacks."

  /** Everything after the fitness goal. */
  const Instructions: string := ". " + Breakdown + HeaderFormat + Sections

  /** `dietary if dietary else ["None"]`: the chosen tags, or the single tag
      `None` when nothing was chosen; never an empty list. */
  function DietaryTags(chosen: seq<string>): (tags: seq<string>)
    ensures tags != []
    ensures chosen != [] ==> tags == chosen
    ensures chosen == [] ==> tags == ["None"]
  {
    if chosen != [] then chosen else ["None"]
  }

  /** The clause is sent only for a female user whose phase is known. */
  predicate MentionsCycle(p: Profile) {
    p.gender == "Female" && p.menstrualCycle != NotApplicable
  }

  /** The opening sentence, up to the activity level. */
  function Opening(p: Profile): string {
    Intro + NatToDigits(p.age) + YearOld + p.gender + WithWeight + NatToDigits(p.weight)
    + KgHeight + NatToDigits(p.height) + CmActivity + p.activity + ", "
  }

  /** The dietary part: the tags joined by `, `. */
  function DietaryPart(p: Profile): string {
    DietaryLead + Join(p.dietary, ", ") + ", "
  }

  function CycleClause(phase: string): string {
    CycleLead + (phase + ", ")
  }

  /** The fitness goal and the fixed instructions, among them the header
      format that the day splitter reads. */
  function Closing(p: Profile): string {
    GoalLead + (p.fitnessGoal + Instructions)
  }

  /** The prompt: the opening and dietary part, the cycle clause when it
      applies, then the closing. */
  function PromptText(p: Profile): string {
    Opening(p) + DietaryPart(p) + Middle(p) + Closing(p)
  }

  /** What stands between the dietary part and the closing. */
  function Middle(p: Profile): string {
    if MentionsCycle(p) then CycleClause(p.menstrualCycle) else ""
  }

  /** The prompt of `generate_meal_plan`, built with `+=`. */
  method MealPlanPrompt(p: Profile) returns (prompt: string)
    ensures prompt == PromptText(p)
  {
    prompt := Opening(p) + DietaryPart(p);
    if p.gender == "Female" && p.menstrualCycle != NotApplicable {
      prompt := prompt + CycleClause(p.menstrualCycle);
    }
    prompt := prompt + Closing(p);
  }

  /** The cycle clause, with the user's phase, sits right after the dietary
      part when the user is female and the phase is known. */
  lemma CycleClauseSent(p: Profile)
    requires MentionsCycle(p)
    ensures OccursAt(PromptText(p), CycleClause(p.menstrualCycle), |Opening(p) + DietaryPart(p)|)
  {
    OccursBetween(Opening(p) + DietaryPart(p), CycleClause(p.menstrualCycle), Closing(p));
  }

  /** Otherwise the dietary part runs straight into the closing, and the
      clause is not there. */
  lemma CycleClauseNotSent(p: Profile)
    requires !MentionsCycle(p)
    ensures PromptText(p) == Opening(p) + DietaryPart(p) + Closing(p)
    ensures !OccursAt(PromptText(p), CycleClause(p.menstrualCycle), |Opening(p) + DietaryPart(p)|)
  {
    var head := Opening(p) + DietaryPart(p);
    EmptyMiddle(head, Closing(p));
    FirstOfJoined(GoalLead, p.fitnessGoal + Instructions);
    FirstOfJoined(CycleLead, p.menstrualCycle + ", ");
    MismatchAt(head, Closing(p), CycleClause(p.menstrualCycle));
  }

  /** Both directions together. */
  lemma CycleClauseIff(p: Profile)
    ensures MentionsCycle(p) <==>
      OccursAt(PromptText(p), CycleClause(p.menstrualCycle), |Opening(p) + DietaryPart(p)|)
  {
    if MentionsCycle(p) {
      CycleClauseSent(p);
    } else {
      CycleClauseNotSent(p);
    }
  }

  /** Without the clause the phase has no effect on the prompt. */
  lemma PhaseIgnored(p: Profile, phase: string)
    requires !MentionsCycle(p) && !MentionsCycle(p.(menstrualCycle := phase))
    ensures PromptText(p.(menstrualCycle := phase)) == PromptText(p)
  {
  }

  /** Every dietary tag appears in the prompt. */
  lemma DietaryInPrompt(p: Profile, i: nat)
    requires i < |p.dietary|
    ensures Contains(PromptText(p), p.dietary[i])
  {
    var tag, joined := p.dietary[i], Join(p.dietary, ", ");
    JoinHasEach(p.dietary, ", ", i);
    var k :| 0 <= k <= |joined| - |tag| && OccursAt(joined, tag, k);
    OccursInMiddle(DietaryLead, joined, ", ", tag, k);
    OccursInSecond(Opening(p), DietaryPart(p), Middle(p), Closing(p), tag, |DietaryLead| + k);
  }

  /** With no tag chosen the prompt names the tag `None`. */
  lemma NoTagsChosen(p: Profile)
    requires p.dietary == DietaryTags([])
    ensures DietaryPart(p) == DietaryLead + "None" + ", "
    ensures OccursAt(PromptText(p), DietaryPart(p), |Opening(p)|)
  {
    assert Join(["None"], ", ") == "None";
    assert OccursAt(DietaryPart(p), DietaryPart(p), 0);
    OccursInSecond(Opening(p), DietaryPart(p), Middle(p), Closing(p), DietaryPart(p), 0);
  }
}
