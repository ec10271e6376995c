/** The decisions the page makes around the request: refusing an empty pantry, packing the
    request body, choosing the recipe cards to show, rendering the difficulty badge and
    choosing the error text. */
module Client {
  import opened Wrappers
  import opened Text
  import opened Json
  import opened Seqs

  const EmptyPantryMessage: string := "Please add at least one ingredient to your pantry to generate a recipe."
  const NoRecipesMessage: string :=
    "The AI could not generate any recipes with your inputs. Please try different ingredients or preferences."
  const UnknownServerError: string := "Unknown server error."
  const HttpErrorPrefix: string := "HTTP error! status: "

  /** The raw values of the four preference selects. */
  datatype Preferences = Preferences(cuisine: string, mealType: string, course: string, difficulty: string)

  /** The JSON body `generateRecipe` posts. */
  datatype RequestBody = RequestBody(ingredients: seq<string>, cuisine: string, mealType: string,
                                     course: string, difficulty: string)

  /** What pressing the search button does: refuse with a message, or send a request. */
  datatype Submission = Refused(message: string) | Send(body: RequestBody)

  /** `generateRecipe` up to the `fetch`: an empty pantry is refused without a request;
      otherwise the pantry goes out as it is, cuisine, meal type and course trimmed, and the
      difficulty as selected. */
  function Submit(pantry: seq<string>, prefs: Preferences): (r: Submission)
    ensures r.Refused? <==> pantry == []
    ensures r.Refused? ==> r.message == EmptyPantryMessage
    ensures r.Send? ==> r.body.ingredients == pantry && r.body.difficulty == prefs.difficulty
    ensures r.Send? ==> NoEdgeSpace(r.body.cuisine) && NoEdgeSpace(r.body.mealType) && NoEdgeSpace(r.body.course)
  {
    var cuisine := Trim(prefs.cuisine);
    var mealType := Trim(prefs.mealType);
    var course := Trim(prefs.course);
    if |pantry| == 0 then Refused(EmptyPantryMessage)
    else Send(RequestBody(pantry, cuisine, mealType, course, prefs.difficulty))
  }

  /** The body as the server receives it after `JSON.stringify` and `express.json`. */
  function RequestJson(b: RequestBody): Value
  {
    Obj(map["ingredients" := Arr(Strings(b.ingredients)), "cuisine" := Str(b.cuisine),
            "mealType" := Str(b.mealType), "course" := Str(b.course), "difficulty" := Str(b.difficulty)])
  }

  /** Each field of a body reads back as packed. */
  lemma BodyFields(b: RequestBody)
    ensures var body := RequestJson(b);
      Get(body, "ingredients") == Some(Arr(Strings(b.ingredients))) &&
      Get(body, "cuisine") == Some(Str(b.cuisine)) &&
      Get(body, "mealType") == Some(Str(b.mealType)) &&
      Get(body, "course") == Some(Str(b.course)) &&
      Get(body, "difficulty") == Some(Str(b.difficulty))
  {
    var fields := RequestJson(b).fields;
    assert fields["ingredients"] == Arr(Strings(b.ingredients));
    assert fields["cuisine"] == Str(b.cuisine);
    assert fields["mealType"] == Str(b.mealType);
    assert fields["course"] == Str(b.course);
    assert fields["difficulty"] == Str(b.difficulty);
  }

  /** A sent body has exactly five properties, and these are the values the server reads. */
  lemma SentFields(pantry: seq<string>, prefs: Preferences)
    requires Submit(pantry, prefs).Send?
    ensures RequestJson(Submit(pantry, prefs).body).fields.Keys ==
      {"ingredients", "cuisine", "mealType", "course", "difficulty"}
    ensures var body := RequestJson(Submit(pantry, prefs).body);
      Get(body, "ingredients") == Some(Arr(Strings(pantry))) &&
      Get(body, "cuisine") == Some(Str(Trim(prefs.cuisine))) &&
      Get(body, "mealType") == Some(Str(Trim(prefs.mealType))) &&
      Get(body, "course") == Some(Str(Trim(prefs.course))) &&
      Get(body, "difficulty") == Some(Str(prefs.difficulty))
  {
    var b := Submit(pantry, prefs).body;
    assert b == RequestBody(pantry, Trim(prefs.cuisine), Trim(prefs.mealType), Trim(prefs.course), prefs.difficulty);
    BodyFields(b);
  }

  /** What `displayRecipes` puts on the page: the information message, or the cards. */
  datatype Display = Info(message: string) | Cards(recipes: seq<Value>)

  /** A result gets a card when it is truthy and has a truthy `name` and `instructions`. */
  predicate Showable(recipe: Value)
  {
    Truthy(recipe) && Present(Get(recipe, "name")) && Present(Get(recipe, "instructions"))
  }

  /** `displayRecipes(data.results)`: a missing, non-array or empty `results` gives the
      information message; otherwise the showable results, in their order. */
  function ShownCards(results: Option<Value>): (d: Display)
    ensures d.Info? <==> !(results.Some? && results.value.Arr? && |results.value.items| > 0)
    ensures d.Info? ==> d.message == NoRecipesMessage
    ensures d.Cards? ==> d.recipes == Filter(Showable, results.value.items)
    ensures d.Cards? ==> (|d.recipes| <= |results.value.items| &&
      forall r :: r in d.recipes <==> r in results.value.items && Showable(r))
  {
    if !(results.Some? && results.value.Arr?) || |results.value.items| == 0 then Info(NoRecipesMessage)
    else
      FilterMembers(Showable, results.value.items);
      Cards(Filter(Showable, results.value.items))
  }

  /** The difficulty badge of a card: its CSS class and its text. */
  datatype Badge = Badge(cssClass: string, caption: string)

  /** Lines 126 and 132 of the card template. `None` when `difficulty` is truthy but not a
      string: `toLowerCase` is then not a function and rendering throws. */
  function DifficultyBadge(difficulty: Option<Value>): (r: Option<Badge>)
    ensures r.None? <==> Present(difficulty) && !difficulty.value.Str?
  {
    if !Present(difficulty) then Some(Badge("", "N/A"))
    else match difficulty.value
      case Str(d) => Some(Badge("difficulty-" + LowerText(d), [Upper(d[0])] + d[1..]))
      case _ => None
  }

  /** The badge's class and caption agree: the class is `difficulty-` and the caption in lower
      case, and the caption is the difficulty with its first letter capitalised. A falsy
      difficulty shows `N/A` with no class. */
  lemma {:induction false} BadgeAgrees(difficulty: Option<Value>)
    ensures !Present(difficulty) ==> DifficultyBadge(difficulty) == Some(Badge("", "N/A"))
    ensures Present(difficulty) && difficulty.value.Str? ==>
      var d := difficulty.value.s;
      var b := DifficultyBadge(difficulty).value;
      |b.caption| == |d| && b.caption[1..] == d[1..] && b.caption[0] == Upper(d[0]) &&
      b.cssClass == "difficulty-" + LowerText(b.caption)
  {
    if Present(difficulty) && difficulty.value.Str? {
      var d := difficulty.value.s;
      var b := DifficultyBadge(difficulty).value;
      LowerUpper(d[0]);
      assert LowerText(b.caption) == LowerText(d);
    }
  }

  /** The exceptions the page's own code can throw once a response is in. Their messages come
      from the runtime; `AfterResponse` takes them as a parameter. */
  datatype PageFault =
    | UnparseableBody            // `response.json()` on an OK response whose body is not JSON
    | NullRead(property: string) // `data.results` or `errorData.error` on a `null` body
    | DifficultyNotText          // `recipe.difficulty.toLowerCase` on a truthy non-string
    | IngredientsNotList         // `recipe.ingredients.join` on a truthy non-array with a positive `length`
    | NoPrimitive                // converting an object with its own `toString` property to text

  /** The card fields the template converts to text after the badge (lines 130-138); a falsy
      one is replaced by a fixed text and so never converted. */
  predicate TemplateConverts(recipe: Value)
  {
    Converts(Get(recipe, "name")) && Converts(Get(recipe, "prep_time")) && Converts(Get(recipe, "cook_time")) &&
    Converts(Get(recipe, "cuisine")) && Converts(Get(recipe, "course")) && Converts(Get(recipe, "description"))
  }

  /** `recipe.ingredients.length > 0` converts an object's `length` property to a number, which
      throws when that property does not convert to a primitive. */
  predicate LengthThrows(ingredients: Option<Value>)
  {
    ingredients.Some? && ingredients.value.Obj? && "length" in ingredients.value.fields &&
    !Convertible(ingredients.value.fields["length"])
  }

  /** `recipe.ingredients.join(', ')` on a non-empty array throws when an element does not
      convert to text. */
  predicate ListThrows(ingredients: Option<Value>)
  {
    ingredients.Some? && ingredients.value.Arr? && |ingredients.value.items| > 0 && !Convertible(ingredients.value)
  }

  /** `recipe.ingredients && recipe.ingredients.length > 0` holds although `ingredients` has no
      `join`: a non-empty string, or an object whose `length` property is a positive number or
      `true`. */
  predicate IngredientsThrow(ingredients: Option<Value>)
  {
    ingredients.Some? &&
    match ingredients.value
    case Str(s) => s != ""
    case Obj(fields) =>
      "length" in fields && (fields["length"] == Bool(true) || (fields["length"].Num? && fields["length"].n > 0))
    case _ => false
  }

  /** Rendering one card, in the order of the code: the card's `id` is set (line 123), the
      difficulty class is computed (line 126), the template converts its fields (lines
      130-138), then the ingredient list is tested and joined (line 141). The first step that
      throws decides the fault. */
  function RenderFault(recipe: Value): (r: Option<PageFault>)
    ensures r == Some(DifficultyNotText) <==>
      Converts(Get(recipe, "id")) && DifficultyBadge(Get(recipe, "difficulty")).None?
    ensures r == Some(IngredientsNotList) <==>
      Converts(Get(recipe, "id")) && DifficultyBadge(Get(recipe, "difficulty")).Some? && TemplateConverts(recipe) &&
      !LengthThrows(Get(recipe, "ingredients")) && IngredientsThrow(Get(recipe, "ingredients"))
    ensures r == Some(NoPrimitive) <==>
      !Converts(Get(recipe, "id")) ||
      (DifficultyBadge(Get(recipe, "difficulty")).Some? &&
       (!TemplateConverts(recipe) || LengthThrows(Get(recipe, "ingredients")) || ListThrows(Get(recipe, "ingredients"))))
    ensures r.None? <==>
      Converts(Get(recipe, "id")) && DifficultyBadge(Get(recipe, "difficulty")).Some? && TemplateConverts(recipe) &&
      !LengthThrows(Get(recipe, "ingredients")) && !IngredientsThrow(Get(recipe, "ingredients")) &&
      !ListThrows(Get(recipe, "ingredients"))
  {
    var ingredients := Get(recipe, "ingredients");
    if !Converts(Get(recipe, "id")) then Some(NoPrimitive)
    else if DifficultyBadge(Get(recipe, "difficulty")).None? then Some(DifficultyNotText)
    else if !TemplateConverts(recipe) then Some(NoPrimitive)
    else if LengthThrows(ingredients) then Some(NoPrimitive)
    else if IngredientsThrow(ingredients) then Some(IngredientsNotList)
    else if ListThrows(ingredients) then Some(NoPrimitive)
    else None
  }

  /** `recipes.forEach(...)` over the showable cards stops at the first card that throws. */
  function FirstRenderFault(cards: seq<Value>): (r: Option<PageFault>)
    ensures r.None? <==> forall i :: 0 <= i < |cards| ==> RenderFault(cards[i]).None?
    ensures r.Some? ==>
      exists i :: 0 <= i < |cards| && RenderFault(cards[i]) == r &&
        (forall j :: 0 <= j < i ==> RenderFault(cards[j]).None?)
  {
    if cards == [] then None
    else if RenderFault(cards[0]).Some? then RenderFault(cards[0])
    else
      var r := FirstRenderFault(cards[1..]);
      assert forall i :: 1 <= i < |cards| ==> cards[i] == cards[1..][i - 1];
      r
  }

  /** The message of the Error thrown for a response that is not OK: the `error` of the
      parsed body when truthy, otherwise the status. When the body does not parse the fallback
      `{ error: 'Unknown server error.' }` is used. A `null` body makes the read of `error`
      itself throw, and an `error` that does not convert to text makes `new Error` throw; the
      message is then the runtime's, from `runtimeError`. A non-empty string the server sent
      as `error` is the message as it is. */
  function NonOkMessage(status: nat, body: Option<Value>, runtimeError: PageFault -> string): (r: string)
    ensures forall e :: e != "" && body.Some? && Get(body.value, "error") == Some(Str(e)) ==> r == e
    ensures body.Some? && Present(Get(body.value, "error")) && !Convertible(Get(body.value, "error").value) ==>
      r == runtimeError(NoPrimitive)
  {
    if body.None? then UnknownServerError
    else if body.value.Null? then runtimeError(NullRead("error"))
    else
      var error := Get(body.value, "error");
      if !Present(error) then HttpErrorPrefix + NatText(status)
      else if !Convertible(error.value) then runtimeError(NoPrimitive)
      else ToText(error.value)
  }

  /** The text `displayMessage` shows for a caught error. */
  function FailureText(message: string): string
  {
    "Failed to generate recipe: " + message + ". Please try again."
  }

  /** The message is the fallback text for a body that does not parse and the runtime's
      message for a `null` body; it is the text of a truthy `error` that converts, the
      runtime's message for one that does not, and without a truthy `error` it carries the
      status, which can be read back from its digits. */
  lemma NonOkMessageCases(status: nat, body: Option<Value>, runtimeError: PageFault -> string)
    ensures body == None ==> NonOkMessage(status, body, runtimeError) == UnknownServerError
    ensures body == Some(Null) ==> NonOkMessage(status, body, runtimeError) == runtimeError(NullRead("error"))
    ensures body.Some? && Present(Get(body.value, "error")) && Convertible(Get(body.value, "error").value) ==>
      NonOkMessage(status, body, runtimeError) == ToText(Get(body.value, "error").value)
    ensures body.Some? && Present(Get(body.value, "error")) && !Convertible(Get(body.value, "error").value) ==>
      NonOkMessage(status, body, runtimeError) == runtimeError(NoPrimitive)
    ensures body.Some? && !body.value.Null? && !Present(Get(body.value, "error")) ==>
      var m := NonOkMessage(status, body, runtimeError);
      |m| > |HttpErrorPrefix| && m[..|HttpErrorPrefix|] == HttpErrorPrefix &&
      (forall i :: |HttpErrorPrefix| <= i < |m| ==> '0' <= m[i] <= '9') &&
      DigitsValue(m[|HttpErrorPrefix|..]) == status
  {
    if body.Some? && !body.value.Null? && !Present(Get(body.value, "error")) {
      var m := NonOkMessage(status, body, runtimeError);
      assert m[|HttpErrorPrefix|..] == NatText(status);
      NatTextRoundTrip(status);
    }
  }

  /** What the page ends up showing once the response is in. */
  datatype Screen = Shown(display: Display) | ErrorShown(text: string)

  /** The `fetch` continuation of `generateRecipe` together with its `catch`; `runtimeError`
      gives the runtime's message for each exception the page's own code throws. */
  function AfterResponse(ok: bool, status: nat, body: Option<Value>, runtimeError: PageFault -> string): (screen: Screen)
    ensures !ok ==> screen == ErrorShown(FailureText(NonOkMessage(status, body, runtimeError)))
    ensures ok && body.None? ==> screen == ErrorShown(FailureText(runtimeError(UnparseableBody)))
    ensures ok && body == Some(Null) ==> screen == ErrorShown(FailureText(runtimeError(NullRead("results"))))
    ensures ok && body.Some? && !body.value.Null? ==>
      var display := ShownCards(Get(body.value, "results"));
      (screen.Shown? <==> !display.Cards? || forall r :: r in display.recipes ==> RenderFault(r).None?) &&
      (screen.Shown? ==> screen.display == display) &&
      (screen.ErrorShown? ==> exists r :: r in display.recipes && RenderFault(r).Some? &&
                                screen.text == FailureText(runtimeError(RenderFault(r).value)))
  {
    if !ok then ErrorShown(FailureText(NonOkMessage(status, body, runtimeError)))
    else if body.None? then ErrorShown(FailureText(runtimeError(UnparseableBody)))
    else if body.value.Null? then ErrorShown(FailureText(runtimeError(NullRead("results"))))
    else
      var display := ShownCards(Get(body.value, "results"));
      if display.Cards? && FirstRenderFault(display.recipes).Some? then
        ErrorShown(FailureText(runtimeError(FirstRenderFault(display.recipes).value)))
      else Shown(display)
  }
}
