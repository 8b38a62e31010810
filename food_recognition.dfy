/** The part of `recognize_food` (main.py:99-145) between the label
    detection call and the nutrition lookup: which labels count as food, and
    what is returned when none do or when the detection fails. */
module FoodRecognition {
  import opened Wrappers
  import opened Text
  import opened Sequences

  /** A label from the detection response. */
  datatype Label = Label(description: string, score: real)

  /** `food_keywords`. */
  const FoodKeywords: seq<string> := [
    "food", "dish", "meal", "cuisine", "vegetable", "fruit", "meat", "dessert",
    "breakfast", "lunch", "dinner", "snack", "ingredient", "recipe", "plate"]

  const ScoreThreshold: real := 0.7

  const NoFoodMessage: string := "No food items detected in this image. Try uploading a clearer image of your meal."

  const ErrorPrefix: string := "Error recognizing food: "

  /** `any(keyword in text for keyword in keywords)`, scanning the keywords in
      order. */
  function AnyKeywordIn(text: string, keywords: seq<string>): (r: bool)
    ensures r <==> exists i :: 0 <= i < |keywords| && Contains(text, keywords[i])
  {
    if keywords == [] then false
    else Contains(text, keywords[0]) || AnyKeywordIn(text, keywords[1..])
  }

  /** `is_food`: a keyword occurs in the lower-cased description, or the
      score is above the threshold. */
  predicate IsFood(item: Label) {
    AnyKeywordIn(Lower(item.description), FoodKeywords) || item.score > ScoreThreshold
  }

  /** What `recognize_food` returns. */
  datatype Recognition =
    | NoFood(message: string)
    | Detected(detected: seq<Label>, foodItems: seq<string>)
    | Failed(message: string)

  /** The descriptions of `labels`, in order (`food_items`). */
  function Descriptions(labels: seq<Label>): (r: seq<string>)
    ensures |r| == |labels|
    ensures forall i :: 0 <= i < |labels| ==> r[i] == labels[i].description
  {
    seq(|labels|, i requires 0 <= i < |labels| => labels[i].description)
  }

  /** The loop of `recognize_food` filling `food_labels`: the food labels,
      in their original order. */
  method FoodLabels(labels: seq<Label>) returns (kept: seq<Label>)
    ensures kept == Filter(labels, IsFood)
  {
    kept := [];
    for i := 0 to |labels|
      invariant kept == Filter(labels[..i], IsFood)
    {
      var item := labels[i];
      var isFood := AnyKeywordIn(Lower(item.description), FoodKeywords) || item.score > ScoreThreshold;
      FilterSnoc(labels, i, IsFood);
      if isFood {
        kept := kept + [item];
      }
    }
    assert labels[..|labels|] == labels;
  }

  /** `recognize_food` given the detection outcome: a failure becomes the
      error text; no food label gives the fixed message and no lookup;
      otherwise the food labels and the descriptions to look up, both in
      the detected order. */
  method RecognizeFood(response: Result<seq<Label>, string>) returns (r: Recognition)
    ensures response.Failure? ==> r == Failed(ErrorPrefix + response.error)
    ensures response.Success? ==>
      (Filter(response.value, IsFood) == [] ==> r == NoFood(NoFoodMessage))
    ensures response.Success? ==>
      (Filter(response.value, IsFood) != [] ==>
        r == Detected(Filter(response.value, IsFood), Descriptions(Filter(response.value, IsFood))))
  {
    if response.Failure? {
      return Failed(ErrorPrefix + response.error);
    }
    var foodLabels := FoodLabels(response.value);
    if foodLabels == [] {
      return NoFood(NoFoodMessage);
    }
    var foodItems := Descriptions(foodLabels);
    return Detected(foodLabels, foodItems);
  }

  /** A label is kept exactly when it is a food label. */
  lemma KeptExactlyFood(labels: seq<Label>)
    ensures forall x :: x in Filter(labels, IsFood) <==> x in labels && IsFood(x)
  {
    forall x {
      FilterMembership(labels, IsFood, x);
    }
  }

  /** The kept labels are the food labels at increasing positions of the
      input, so the order of detection is kept. */
  lemma KeptInOrder(labels: seq<Label>)
    ensures SelectsExactly(labels, IsFood, Filter(labels, IsFood), FilterIndices(labels, IsFood))
  {
  }

  /** The keyword test ignores case: `Hot DISH` is a food label even with a
      low score. */
  lemma KeywordIgnoresCase()
    ensures IsFood(Label("Hot DISH", 0.1))
  {
    var text := Lower("Hot DISH");
    assert text == "hot dish";
    assert text[4..8] == "dish";
    assert OccursAt(text, FoodKeywords[1], 4);
  }
}
