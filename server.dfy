/** The `POST /api/generate-recipe` handler: request validation, the preference lines of the
    prompt, the three-stage parse of the model's text and the repair of every recipe record. */
module Server {
  import opened Wrappers
  import opened Text
  import opened Json
  import opened Seqs
  import Fence
  import Quantity

  const NoIngredientsError: string := "Please provide at least one ingredient."
  const MarkdownParseError: string := "Could not parse recipes from AI response's markdown block."
  const RawParseError: string := "Could not retrieve a valid recipe array from AI response."
  const ServerErrorPrefix: string := "Failed to generate recipes. Server error: "
  const NoInstructions: string := "Instructions not available."
  const NoIngredients: string := "Ingredients not specified."

  /** What the handler sends back: 200 with the repaired recipes and their count, or an
      error status with the `error` text. `Unanswered` is a handler whose promise is rejected
      by a fault thrown before its `try`: the handler sends nothing, and what the client gets
      then depends on the Express and Node versions, which are not part of this model. */
  datatype Reply =
    | Generated(results: seq<Value>, totalGenerated: nat)
    | Failure(status: nat, error: string)
    | Unanswered(fault: Fault)

  /** The JSON body of a reply the handler sends. */
  function ReplyBody(r: Reply): Value
    requires !r.Unanswered?
  {
    match r
    case Generated(results, total) =>
      Obj(map["results" := Arr(results), "stats" := Obj(map["totalGenerated" := Num(total)])])
    case Failure(_, error) => Obj(map["error" := Str(error)])
  }

  /** The HTTP status of a reply the handler sends. */
  function ReplyStatus(r: Reply): nat
    requires !r.Unanswered?
  {
    if r.Generated? then 200 else r.status
  }

  // ---------------------------------------------------------------------------------------
  // Validation and prompt

  /** The `ingredients` of the request body when they pass validation: a request whose
      `ingredients` is missing, falsy, not an array or empty is refused. */
  function RequestIngredients(body: Value): (r: Option<seq<Value>>)
    ensures r.Some? <==> Get(body, "ingredients").Some? && Get(body, "ingredients").value.Arr? &&
                         |Get(body, "ingredients").value.items| > 0
    ensures r.Some? ==> Get(body, "ingredients") == Some(Arr(r.value))
  {
    var ingredients := Get(body, "ingredients");
    if !Present(ingredients) || !ingredients.value.Arr? || |ingredients.value.items| == 0 then None
    else Some(ingredients.value.items)
  }

  /** The parts of the prompt that depend on the request. The fixed instructions around them
      are not modelled. */
  datatype Prompt = Prompt(ingredientsList: string, cuisineLine: string, mealTypeLine: string,
                           difficultyLine: string)

  /** `${field ? `<caption>${field}` : ''}`. */
  function PreferenceLine(caption: string, field: Option<Value>): string
    requires Converts(field)
  {
    if Present(field) then caption + ToText(field.value) else ""
  }

  /** Every value the prompt converts to text converts: the ingredients joined at line 39 and
      the three preferences of lines 47-49. */
  predicate PromptConverts(body: Value, ingredients: seq<Value>)
  {
    (forall i :: 0 <= i < |ingredients| ==> Convertible(ingredients[i])) &&
    Converts(Get(body, "cuisine")) && Converts(Get(body, "mealType")) && Converts(Get(body, "difficulty"))
  }

  /** The prompt for a validated request, or the fault of converting a value that has its own
      `toString` to text. `course` is not destructured and plays no part. */
  function BuildPrompt(body: Value, ingredients: seq<Value>): (r: Result<Prompt, Fault>)
    ensures r.Ok? <==> PromptConverts(body, ingredients)
    ensures r.Err? ==> r.error == NoPrimitive
    ensures r.Ok? ==> (r.value.cuisineLine != "" <==> Present(Get(body, "cuisine")))
    ensures r.Ok? ==> (r.value.mealTypeLine != "" <==> Present(Get(body, "mealType")))
    ensures r.Ok? ==> (r.value.difficultyLine != "" <==> Present(Get(body, "difficulty")))
  {
    if !PromptConverts(body, ingredients) then Err(NoPrimitive)
    else
      Ok(Prompt(JoinValues(ingredients, ", "),
                PreferenceLine("Cuisine preference: ", Get(body, "cuisine")),
                PreferenceLine("Meal type preference: ", Get(body, "mealType")),
                PreferenceLine("Desired difficulty: ", Get(body, "difficulty"))))
  }

  /** For string ingredients the prompt is built exactly when every truthy preference converts;
      the ingredient list is then the names joined by ", ", and a preference line that is
      present carries its caption and the field's text. */
  lemma PromptLines(body: Value, names: seq<string>)
    ensures BuildPrompt(body, Strings(names)).Ok? <==>
      Converts(Get(body, "cuisine")) && Converts(Get(body, "mealType")) && Converts(Get(body, "difficulty"))
    ensures BuildPrompt(body, Strings(names)).Ok? ==>
      BuildPrompt(body, Strings(names)).value.ingredientsList == Join(names, ", ")
    ensures BuildPrompt(body, Strings(names)).Ok? && Present(Get(body, "cuisine")) ==>
      BuildPrompt(body, Strings(names)).value.cuisineLine == "Cuisine preference: " + ToText(Get(body, "cuisine").value)
    ensures BuildPrompt(body, Strings(names)).Ok? && Present(Get(body, "mealType")) ==>
      BuildPrompt(body, Strings(names)).value.mealTypeLine == "Meal type preference: " + ToText(Get(body, "mealType").value)
    ensures BuildPrompt(body, Strings(names)).Ok? && Present(Get(body, "difficulty")) ==>
      BuildPrompt(body, Strings(names)).value.difficultyLine == "Desired difficulty: " + ToText(Get(body, "difficulty").value)
  {
    JoinStrings(names, ", ");
  }

  /** Whatever `course` holds, the prompt is the same. */
  lemma CourseNeverRead(fields: map<string, Value>, course: Value, ingredients: seq<Value>)
    ensures BuildPrompt(Obj(fields["course" := course]), ingredients) ==
            BuildPrompt(Obj(fields - {"course"}), ingredients)
  {
  }

  // ---------------------------------------------------------------------------------------
  // Parse chain

  /** The fallback chain over the model's text, with `JSON.parse` as `parse`: the whole text;
      if that fails and a fenced `json` block with a non-empty body exists, that body and
      nothing else; otherwise the trimmed text. */
  function ParseChain(text: string, parse: string -> Option<Value>): (r: Result<Value, string>)
    ensures r.Err? ==> r.error == MarkdownParseError || r.error == RawParseError
  {
    match parse(text)
    case Some(v) => Ok(v)
    case None =>
      var block := Fence.ExtractFenced(text);
      if block.Some? && block.value != "" then
        match parse(block.value)
        case Some(v) => Ok(v)
        case None => Err(MarkdownParseError)
      else
        match parse(Trim(text))
        case Some(v) => Ok(v)
        case None => Err(RawParseError)
  }

  /** A value the chain accepts comes from parsing the text, the fenced block or the trimmed
      text, tried in that order; the trimmed text is tried only when there is no non-empty
      block, and a block that fails to parse ends the chain. */
  lemma ParseChainStages(text: string, parse: string -> Option<Value>)
    ensures parse(text).Some? ==> ParseChain(text, parse) == Ok(parse(text).value)
    ensures parse(text).None? && Fence.ExtractFenced(text).Some? && Fence.ExtractFenced(text).value != "" ==>
      ParseChain(text, parse) == (if parse(Fence.ExtractFenced(text).value).Some?
                                  then Ok(parse(Fence.ExtractFenced(text).value).value)
                                  else Err(MarkdownParseError))
    ensures parse(text).None? && !(Fence.ExtractFenced(text).Some? && Fence.ExtractFenced(text).value != "") &&
            parse(Trim(text)).Some? ==>
      ParseChain(text, parse) == Ok(parse(Trim(text)).value)
    ensures ParseChain(text, parse).Err? && ParseChain(text, parse).error == RawParseError <==>
      parse(text).None? && parse(Trim(text)).None? &&
      (Fence.ExtractFenced(text).None? || Fence.ExtractFenced(text).value == "")
  {
  }

  /** The same document gives the same value whether the model returns it bare, inside a
      fenced `json` block, or padded with white space (when neither wrapped form parses
      directly and the padded text holds no fence). */
  lemma ParseChainWrappings(t: string, v: Value, pad1: string, pad2: string, parse: string -> Option<Value>)
    requires parse(t) == Some(v) && t != "" && NoEdgeSpace(t)
    requires !Fence.Contains(t, Fence.Closer) && parse(Fence.Opener + t + Fence.Closer).None?
    requires AllSpace(pad1) && AllSpace(pad2) && !Fence.Contains(t, "```") && parse(pad1 + t + pad2).None?
    ensures ParseChain(t, parse) == Ok(v)
    ensures ParseChain(Fence.Opener + t + Fence.Closer, parse) == Ok(v)
    ensures ParseChain(pad1 + t + pad2, parse) == Ok(v)
  {
    Fence.FencedRoundTrip(t);
    TrimPadded(pad1, t, pad2);
    NoFenceInPadded(pad1, t, pad2);
  }

  /** An opening fence in a white-space padded text lies inside the unpadded part, since it
      starts with three backticks. */
  lemma OpenerInsidePadding(pad1: string, t: string, pad2: string, i: nat)
    requires AllSpace(pad1) && AllSpace(pad2) && Fence.At(pad1 + t + pad2, i, Fence.Opener)
    ensures |pad1| <= i && Fence.At(t, i - |pad1|, "```")
  {
    var s := pad1 + t + pad2;
    var w := s[i..i + |Fence.Opener|];
    assert s[i] == w[0] == '`' && s[i + 1] == w[1] == '`' && s[i + 2] == w[2] == '`';
    var k := i - |pad1|;
    assert t[k] == s[i] && t[k + 1] == s[i + 1] && t[k + 2] == s[i + 2];
    assert t[k..k + 3] == "```";
  }

  /** White-space padding cannot create a fence. */
  lemma NoFenceInPadded(pad1: string, t: string, pad2: string)
    requires AllSpace(pad1) && AllSpace(pad2) && !Fence.Contains(t, "```")
    ensures Fence.ExtractFenced(pad1 + t + pad2).None?
  {
    var s := pad1 + t + pad2;
    if Fence.ExtractFenced(s).Some? {
      var i: nat, j: nat :| Fence.FenceAt(s, i, j);
      OpenerInsidePadding(pad1, t, pad2, i);
      assert false;
    }
  }

  // ---------------------------------------------------------------------------------------
  // Record repair

  /** The TypeErrors the repair step can throw inside `generatedRecipes.map`. */
  datatype Fault =
    | NotAnArray                 // `generatedRecipes.map` on a parsed value that is neither an array nor null
    | ReadOfNull(property: string) // a property read on a null record or a null ingredient
    | ReplaceOnNonString         // `ing.replace` on a number, boolean, array or object
    | NoPrimitive                // converting an object with its own `toString` property to text

  /** The two nondeterministic inputs of a generated id: `Date.now()` and the text of
      `Math.random().toString(36)`. */
  datatype IdSeed = IdSeed(millis: nat, random36: string)

  /** `recipe_${Date.now()}_${Math.random().toString(36).substring(2, 9)}`. */
  function FreshId(seed: IdSeed): (id: string)
    ensures |id| > 7 && id[..7] == "recipe_"
  {
    "recipe_" + NatText(seed.millis) + "_" + Substring(seed.random36, 2, 9)
  }

  /** Keeps a truthy `id` and replaces a falsy or missing one. */
  function WithId(fields: map<string, Value>, seed: IdSeed): (r: map<string, Value>)
    ensures r.Keys == fields.Keys + {"id"} && Present(Get(Obj(r), "id"))
  {
    if Present(Get(Obj(fields), "id")) then fields else fields["id" := Str(FreshId(seed))]
  }

  /** A list of steps is joined by newlines, a string stays as it is (even empty), anything
      else becomes the placeholder. */
  function WithInstructions(fields: map<string, Value>): (r: Result<map<string, Value>, Fault>)
    ensures r.Err? <==> "instructions" in fields && fields["instructions"].Arr? && !Convertible(fields["instructions"])
    ensures r.Err? ==> r.error == NoPrimitive
    ensures r.Ok? ==> r.value.Keys == fields.Keys + {"instructions"} && r.value["instructions"].Str?
  {
    var instructions := Get(Obj(fields), "instructions");
    if instructions.Some? && instructions.value.Arr? then
      if Convertible(instructions.value) then Ok(fields["instructions" := Str(JoinValues(instructions.value.items, "\n"))])
      else Err(NoPrimitive)
    else if !(instructions.Some? && instructions.value.Str?) then
      Ok(fields["instructions" := Str(NoInstructions)])
    else Ok(fields)
  }

  /** `xs.map(ing => f(ing))` where `f` begins with `ing.replace(...)`: every entry mapped by
      `f`, or the fault of the first entry that is not a string. */
  function MapEntries(xs: seq<Value>, f: string -> string): (r: Result<seq<string>, Fault>)
    ensures r.Ok? <==> forall i :: 0 <= i < |xs| ==> xs[i].Str?
    ensures r.Ok? ==> |r.value| == |xs|
  {
    if xs == [] then Ok([])
    else if xs[0].Null? then Err(ReadOfNull("replace"))
    else if !xs[0].Str? then Err(ReplaceOnNonString)
    else match MapEntries(xs[1..], f)
      case Err(e) => Err(e)
      case Ok(rest) => Ok([f(xs[0].s)] + rest)
  }

  /** Entry `i` of the map is `f` of entry `i`. */
  lemma {:induction false} MapEntriesEach(xs: seq<Value>, f: string -> string)
    requires MapEntries(xs, f).Ok?
    ensures forall i :: 0 <= i < |xs| ==> MapEntries(xs, f).value[i] == f(xs[i].s)
  {
    if xs != [] {
      var rest := xs[1..];
      MapEntriesEach(rest, f);
      assert MapEntries(xs, f).value == [f(xs[0].s)] + MapEntries(rest, f).value;
      forall i | 1 <= i < |xs| ensures MapEntries(xs, f).value[i] == f(xs[i].s) {
        assert xs[i] == rest[i - 1];
      }
    }
  }

  /** The map keeps the order of the entries: mapping two lists one after the other is mapping
      their concatenation. */
  lemma MapEntriesConcat(xs: seq<Value>, zs: seq<Value>, f: string -> string)
    requires MapEntries(xs, f).Ok? && MapEntries(zs, f).Ok?
    ensures MapEntries(xs + zs, f) == Ok(MapEntries(xs, f).value + MapEntries(zs, f).value)
  {
    var ys := xs + zs;
    forall i | 0 <= i < |ys| ensures ys[i].Str? {
      if i < |xs| { assert ys[i] == xs[i]; } else { assert ys[i] == zs[i - |xs|]; }
    }
    MapEntriesEach(xs, f);
    MapEntriesEach(zs, f);
    MapEntriesEach(ys, f);
    var c := MapEntries(ys, f).value;
    var d := MapEntries(xs, f).value + MapEntries(zs, f).value;
    forall i | 0 <= i < |ys| ensures c[i] == d[i] {
      if i < |xs| { assert ys[i] == xs[i]; } else { assert ys[i] == zs[i - |xs|]; }
    }
    assert c == d;
  }

  /** The entries of `ing.map(...)`: every entry stripped of its quantity and trimmed, or the
      fault of the first entry that is not a string. */
  function CleanEntries(xs: seq<Value>): (r: Result<seq<string>, Fault>)
    ensures r.Ok? <==> forall i :: 0 <= i < |xs| ==> xs[i].Str?
    ensures r.Ok? ==> |r.value| == |xs|
  {
    MapEntries(xs, Quantity.CleanEntry)
  }

  /** Entry `i` of the map is entry `i` of the list stripped of its quantity and trimmed. */
  lemma CleanEntriesEach(xs: seq<Value>)
    requires CleanEntries(xs).Ok?
    ensures forall i :: 0 <= i < |xs| ==> CleanEntries(xs).value[i] == Quantity.CleanEntry(xs[i].s)
  {
    MapEntriesEach(xs, Quantity.CleanEntry);
  }

  /** `.filter(ing => ing.length > 2)`. */
  predicate LongEnough(s: string)
  {
    |s| > 2
  }

  /** What `recipe.ingredients` becomes when it is an array. */
  function CleanIngredients(xs: seq<Value>): Result<seq<Value>, Fault>
  {
    match CleanEntries(xs)
    case Err(f) => Err(f)
    case Ok(entries) => Ok(Strings(Filter(LongEnough, entries)))
  }

  /** A non-array becomes the one-entry placeholder list; an array is cleaned entry by entry. */
  function WithIngredients(fields: map<string, Value>): (r: Result<map<string, Value>, Fault>)
    ensures r.Err? ==> "ingredients" in fields && fields["ingredients"].Arr?
    ensures r.Ok? ==> r.value.Keys == fields.Keys + {"ingredients"} && r.value["ingredients"].Arr?
  {
    var ingredients := Get(Obj(fields), "ingredients");
    if !(ingredients.Some? && ingredients.value.Arr?) then
      Ok(fields["ingredients" := Arr([Str(NoIngredients)])])
    else match CleanIngredients(ingredients.value.items)
      case Err(f) => Err(f)
      case Ok(cleaned) => Ok(fields["ingredients" := Arr(cleaned)])
  }

  /** The three repairs of one record object, in the order the callback does them. */
  function RepairFields(fields: map<string, Value>, seed: IdSeed): Result<map<string, Value>, Fault>
  {
    match WithInstructions(WithId(fields, seed))
    case Err(f) => Err(f)
    case Ok(f1) => WithIngredients(f1)
  }

  /** The callback of `generatedRecipes.map` on one element. A null element throws on the
      first read; strings, numbers and booleans ignore the property writes (the module is
      not in strict mode); on an array the writes land on non-index properties, which
      `res.json` does not serialise, so arrays come out as they went in. */
  function RepairRecord(v: Value, seed: IdSeed): (r: Result<Value, Fault>)
    ensures v.Null? ==> r == Err(ReadOfNull("id"))
    ensures !v.Obj? && !v.Null? ==> r == Ok(v)
  {
    match v
    case Null => Err(ReadOfNull("id"))
    case Obj(fields) =>
      (match RepairFields(fields, seed)
       case Err(f) => Err(f)
       case Ok(repaired) => Ok(Obj(repaired)))
    case _ => Ok(v)
  }

  /** The first `n` elements of `records.map(step)`, where `step` is given each element and
      its index and may throw, or the fault of the first element that throws. */
  function MapPrefix(records: seq<Value>, step: (Value, nat) -> Result<Value, Fault>, n: nat): Result<seq<Value>, Fault>
    requires n <= |records|
  {
    if n == 0 then Ok([])
    else match MapPrefix(records, step, n - 1)
      case Err(f) => Err(f)
      case Ok(done) =>
        match step(records[n - 1], n - 1)
        case Err(f) => Err(f)
        case Ok(r) => Ok(done + [r])
  }

  /** The callback of `generatedRecipes.map`; element `i` draws its id from `seeds(i)`. */
  function RecordStep(seeds: nat -> IdSeed): (Value, nat) -> Result<Value, Fault>
  {
    (v: Value, i: nat) => RepairRecord(v, seeds(i))
  }

  /** The first `n` elements of `generatedRecipes.map(...)`, or the fault of the first
      element that throws. */
  function RepairPrefix(records: seq<Value>, seeds: nat -> IdSeed, n: nat): Result<seq<Value>, Fault>
    requires n <= |records|
  {
    MapPrefix(records, RecordStep(seeds), n)
  }

  /** `generatedRecipes.map(...)` on the parsed array; record `i` draws its id from `seeds(i)`. */
  function RepairAll(records: seq<Value>, seeds: nat -> IdSeed): Result<seq<Value>, Fault>
  {
    RepairPrefix(records, seeds, |records|)
  }

  /** A truthy `id` is kept; a falsy or missing one is replaced by a fresh `recipe_` id.
      No other property changes. */
  lemma IdKeptOrFresh(fields: map<string, Value>, seed: IdSeed)
    ensures Present(Get(Obj(fields), "id")) ==> WithId(fields, seed) == fields
    ensures !Present(Get(Obj(fields), "id")) ==>
      (WithId(fields, seed)["id"].Str? && WithId(fields, seed)["id"].s[..7] == "recipe_")
    ensures Present(Get(Obj(WithId(fields, seed)), "id"))
    ensures forall k :: k != "id" ==> Get(Obj(WithId(fields, seed)), k) == Get(Obj(fields), k)
  {
  }

  /** The instructions repair throws exactly when `instructions` is an array holding a value
      that does not convert to text; otherwise `instructions` becomes a string: a list of text
      steps becomes those steps joined by newlines, a string stays, anything else becomes the
      placeholder, and repairing again changes nothing. */
  lemma InstructionsNormalised(fields: map<string, Value>, steps: seq<string>)
    ensures WithInstructions(fields).Err? <==>
      Get(Obj(fields), "instructions").Some? && Get(Obj(fields), "instructions").value.Arr? &&
      !Convertible(Get(Obj(fields), "instructions").value)
    ensures WithInstructions(fields).Ok? ==>
      Get(Obj(WithInstructions(fields).value), "instructions").Some? &&
      Get(Obj(WithInstructions(fields).value), "instructions").value.Str?
    ensures Get(Obj(fields), "instructions") == Some(Arr(Strings(steps))) ==>
      WithInstructions(fields) == Ok(fields["instructions" := Str(Join(steps, "\n"))])
    ensures Get(Obj(fields), "instructions").Some? && Get(Obj(fields), "instructions").value.Str? ==>
      WithInstructions(fields) == Ok(fields)
    ensures !(Get(Obj(fields), "instructions").Some? &&
              (Get(Obj(fields), "instructions").value.Str? || Get(Obj(fields), "instructions").value.Arr?)) ==>
      WithInstructions(fields) == Ok(fields["instructions" := Str(NoInstructions)])
    ensures WithInstructions(fields).Ok? ==>
      WithInstructions(WithInstructions(fields).value) == WithInstructions(fields)
    ensures WithInstructions(fields).Ok? ==>
      forall k :: k != "instructions" ==> Get(Obj(WithInstructions(fields).value), k) == Get(Obj(fields), k)
  {
    JoinStrings(steps, "\n");
  }

  /** Cleaning the ingredient list succeeds exactly when every entry is a string; then every
      entry left is longer than two characters and trimmed, every entry left is the cleaned
      form of an entry of the list, and every cleaned entry that is long enough is kept. */
  lemma CleanIngredientsSpec(xs: seq<Value>)
    ensures CleanIngredients(xs).Ok? <==> forall i :: 0 <= i < |xs| ==> xs[i].Str?
    ensures CleanIngredients(xs).Ok? ==> |CleanIngredients(xs).value| <= |xs|
    ensures CleanIngredients(xs).Ok? ==> forall y :: y in CleanIngredients(xs).value ==>
      y.Str? && |y.s| > 2 && NoEdgeSpace(y.s)
    ensures CleanIngredients(xs).Ok? ==> forall i :: 0 <= i < |xs| && |Quantity.CleanEntry(xs[i].s)| > 2 ==>
      Str(Quantity.CleanEntry(xs[i].s)) in CleanIngredients(xs).value
    ensures CleanIngredients(xs).Ok? ==> forall y :: y in CleanIngredients(xs).value ==>
      exists i :: 0 <= i < |xs| && y == Str(Quantity.CleanEntry(xs[i].s))
  {
    if CleanIngredients(xs).Ok? {
      CleanedEntriesShape(xs);
      CleanedEntriesKept(xs);
      CleanedEntriesFrom(xs);
    }
  }

  /** Every entry left is the cleaned form of some entry of the list. */
  lemma CleanedEntriesFrom(xs: seq<Value>)
    requires CleanIngredients(xs).Ok?
    ensures forall y :: y in CleanIngredients(xs).value ==>
      exists i :: 0 <= i < |xs| && y == Str(Quantity.CleanEntry(xs[i].s))
  {
    var entries := CleanEntries(xs).value;
    var kept := Filter(LongEnough, entries);
    assert CleanIngredients(xs).value == Strings(kept);
    forall m | 0 <= m < |kept|
      ensures exists i :: 0 <= i < |xs| && Strings(kept)[m] == Str(Quantity.CleanEntry(xs[i].s))
    {
      assert kept[m] in kept;
      var n :| 0 <= n < |entries| && entries[n] == kept[m];
      CleanEntriesEach(xs);
      assert Strings(kept)[m] == Str(Quantity.CleanEntry(xs[n].s));
    }
  }

  /** Every entry the ingredients repair keeps is a trimmed string longer than two characters. */
  lemma CleanedEntriesShape(xs: seq<Value>)
    requires CleanIngredients(xs).Ok?
    ensures forall y :: y in CleanIngredients(xs).value ==> y.Str? && |y.s| > 2 && NoEdgeSpace(y.s)
  {
    var entries := CleanEntries(xs).value;
    var kept := Filter(LongEnough, entries);
    assert CleanIngredients(xs).value == Strings(kept);
    forall m | 0 <= m < |kept| ensures |kept[m]| > 2 && NoEdgeSpace(kept[m]) {
      assert kept[m] in kept;
      var n :| 0 <= n < |entries| && entries[n] == kept[m];
      CleanEntriesEach(xs);
      assert entries[n] == Quantity.CleanEntry(xs[n].s);
    }
  }

  /** Every cleaned entry longer than two characters is kept. */
  lemma CleanedEntriesKept(xs: seq<Value>)
    requires CleanIngredients(xs).Ok?
    ensures forall i :: 0 <= i < |xs| && |Quantity.CleanEntry(xs[i].s)| > 2 ==>
      Str(Quantity.CleanEntry(xs[i].s)) in CleanIngredients(xs).value
  {
    var entries := CleanEntries(xs).value;
    CleanEntriesEach(xs);
    var kept := Filter(LongEnough, entries);
    forall i | 0 <= i < |xs| && |Quantity.CleanEntry(xs[i].s)| > 2
      ensures Str(Quantity.CleanEntry(xs[i].s)) in Strings(kept)
    {
      assert entries[i] in entries;
      FilterKeeps(LongEnough, entries, entries[i]);
      var m :| 0 <= m < |kept| && kept[m] == entries[i];
      assert Strings(kept)[m] == Str(entries[i]);
    }
  }

  /** Cleaning keeps the order of the entries: cleaning two lists one after the other is
      cleaning their concatenation. */
  lemma CleanIngredientsConcat(xs: seq<Value>, zs: seq<Value>)
    requires CleanIngredients(xs).Ok? && CleanIngredients(zs).Ok?
    ensures CleanIngredients(xs + zs) == Ok(CleanIngredients(xs).value + CleanIngredients(zs).value)
  {
    var a := CleanEntries(xs).value;
    var b := CleanEntries(zs).value;
    MapEntriesConcat(xs, zs, Quantity.CleanEntry);
    FilterConcat(LongEnough, a, b);
    StringsConcat(Filter(LongEnough, a), Filter(LongEnough, b));
  }

  /** Wrapping strings as JSON values distributes over concatenation. */
  lemma StringsConcat(a: seq<string>, b: seq<string>)
    ensures Strings(a + b) == Strings(a) + Strings(b)
  {
  }

  /** A record the repair cannot throw on: not null, and when it is an object, an
      `instructions` array converts to text and every entry of an `ingredients` array is a
      string. */
  predicate Repairable(v: Value)
  {
    !v.Null? &&
    (v.Obj? && "instructions" in v.fields && v.fields["instructions"].Arr? ==>
      Convertible(v.fields["instructions"])) &&
    (v.Obj? && "ingredients" in v.fields && v.fields["ingredients"].Arr? ==>
      forall e :: e in v.fields["ingredients"].items ==> e.Str?)
  }

  /** The ingredients repair throws exactly when `ingredients` is an array holding something
      other than a string. */
  lemma IngredientsRepairThrows(fields: map<string, Value>)
    ensures WithIngredients(fields).Ok? <==>
      !("ingredients" in fields && fields["ingredients"].Arr?) ||
      (forall e :: e in fields["ingredients"].items ==> e.Str?)
  {
    if "ingredients" in fields && fields["ingredients"].Arr? {
      var xs := fields["ingredients"].items;
      CleanIngredientsSpec(xs);
      assert (forall i :: 0 <= i < |xs| ==> xs[i].Str?) <==> (forall e :: e in xs ==> e.Str?);
    }
  }

  /** When it does not throw, the ingredients repair leaves an array of trimmed strings longer
      than two characters and changes no other property. */
  lemma IngredientsShape(fields: map<string, Value>)
    requires WithIngredients(fields).Ok?
    ensures var r := WithIngredients(fields).value;
      r.Keys == fields.Keys + {"ingredients"} && r["ingredients"].Arr? &&
      (forall y :: y in r["ingredients"].items ==> y.Str? && |y.s| > 2 && NoEdgeSpace(y.s)) &&
      (forall k :: k in fields && k != "ingredients" ==> r[k] == fields[k])
    ensures var r := WithIngredients(fields).value;
      !("ingredients" in fields && fields["ingredients"].Arr?) ==> r["ingredients"] == Arr([Str(NoIngredients)])
    ensures var r := WithIngredients(fields).value;
      "ingredients" in fields && fields["ingredients"].Arr? ==>
        r["ingredients"] == Arr(CleanIngredients(fields["ingredients"].items).value)
  {
    var r := WithIngredients(fields).value;
    var ingredients := Get(Obj(fields), "ingredients");
    if ingredients.Some? && ingredients.value.Arr? {
      var xs := ingredients.value.items;
      CleanedEntriesShape(xs);
      assert r == fields["ingredients" := Arr(CleanIngredients(xs).value)];
    } else {
      PlaceholderShape();
      assert r == fields["ingredients" := Arr([Str(NoIngredients)])];
    }
  }

  /** The placeholder list has the same shape. */
  lemma PlaceholderShape()
    ensures forall y :: y in [Str(NoIngredients)] ==> y.Str? && |y.s| > 2 && NoEdgeSpace(y.s)
  {
    assert NoIngredients[0] == 'I' && NoIngredients[|NoIngredients| - 1] == '.';
    assert forall y :: y in [Str(NoIngredients)] ==> y == Str(NoIngredients);
  }

  /** What a repaired object looks like: a truthy `id`, string `instructions`, an array of
      trimmed strings longer than two characters as `ingredients`, every other property as
      it was. The repair throws exactly on records that are not `Repairable`; records that
      are neither objects nor null come out unchanged. */
  lemma RepairedRecordShape(v: Value, seed: IdSeed)
    ensures RepairRecord(v, seed).Ok? <==> Repairable(v)
    ensures v.Obj? && RepairRecord(v, seed).Ok? ==>
      var r := RepairRecord(v, seed).value;
      r.Obj? && r.fields.Keys == v.fields.Keys + {"id", "instructions", "ingredients"} &&
      Present(Get(r, "id")) && r.fields["instructions"].Str? &&
      r.fields["ingredients"].Arr? &&
      (forall y :: y in r.fields["ingredients"].items ==> y.Str? && |y.s| > 2 && NoEdgeSpace(y.s)) &&
      (forall k :: k in v.fields && k !in {"id", "instructions", "ingredients"} ==> r.fields[k] == v.fields[k])
    ensures !v.Obj? && !v.Null? ==> RepairRecord(v, seed) == Ok(v)
  {
    if v.Obj? {
      RepairedFieldsShape(v.fields, seed);
    }
  }

  /** The object case of `RepairedRecordShape`, on the record's properties. */
  lemma RepairedFieldsShape(fields: map<string, Value>, seed: IdSeed)
    ensures RepairFields(fields, seed).Ok? <==>
      ("instructions" in fields && fields["instructions"].Arr? ==> Convertible(fields["instructions"])) &&
      (!("ingredients" in fields && fields["ingredients"].Arr?) ||
       (forall e :: e in fields["ingredients"].items ==> e.Str?))
    ensures RepairFields(fields, seed).Ok? ==>
      var r := RepairFields(fields, seed).value;
      r.Keys == fields.Keys + {"id", "instructions", "ingredients"} &&
      Present(Get(Obj(r), "id")) && r["instructions"].Str? && r["ingredients"].Arr? &&
      (forall y :: y in r["ingredients"].items ==> y.Str? && |y.s| > 2 && NoEdgeSpace(y.s)) &&
      (forall k :: k in fields && k !in {"id", "instructions", "ingredients"} ==> r[k] == fields[k])
  {
    FirstRepairsKeepIngredients(fields, seed);
    if WithInstructions(WithId(fields, seed)).Ok? {
      var f1 := WithInstructions(WithId(fields, seed)).value;
      IngredientsRepairThrows(f1);
      if WithIngredients(f1).Ok? {
        FirstRepairsShape(fields, seed);
        IngredientsShape(f1);
      }
    }
  }

  /** The whole repair keeps a truthy `id` and otherwise sets a string one. */
  lemma RepairedId(fields: map<string, Value>, seed: IdSeed)
    requires RepairFields(fields, seed).Ok?
    ensures Present(Get(Obj(fields), "id")) ==> Get(Obj(RepairFields(fields, seed).value), "id") == Get(Obj(fields), "id")
    ensures !Present(Get(Obj(fields), "id")) ==> Get(Obj(RepairFields(fields, seed).value), "id").value.Str?
  {
    IdKeptOrFresh(fields, seed);
    var f0 := WithId(fields, seed);
    InstructionsNormalised(f0, []);
    IngredientsShape(WithInstructions(f0).value);
  }

  /** The instructions repair throws exactly when the record's own `instructions` is an array
      that does not convert, and the id and instructions repairs do not touch `ingredients`. */
  lemma FirstRepairsKeepIngredients(fields: map<string, Value>, seed: IdSeed)
    ensures WithInstructions(WithId(fields, seed)).Ok? <==>
      ("instructions" in fields && fields["instructions"].Arr? ==> Convertible(fields["instructions"]))
    ensures WithInstructions(WithId(fields, seed)).Ok? ==>
      Get(Obj(WithInstructions(WithId(fields, seed)).value), "ingredients") == Get(Obj(fields), "ingredients")
  {
    IdKeptOrFresh(fields, seed);
    InstructionsNormalised(WithId(fields, seed), []);
  }

  /** After the id and instructions repairs: a truthy `id`, string `instructions`, every
      other property as it was. */
  lemma FirstRepairsShape(fields: map<string, Value>, seed: IdSeed)
    requires WithInstructions(WithId(fields, seed)).Ok?
    ensures var f1 := WithInstructions(WithId(fields, seed)).value;
      f1.Keys == fields.Keys + {"id", "instructions"} &&
      Present(Get(Obj(f1), "id")) && f1["instructions"].Str? &&
      (forall k :: k in fields && k !in {"id", "instructions"} ==> f1[k] == fields[k])
  {
    var f0 := WithId(fields, seed);
    IdKeptOrFresh(fields, seed);
    InstructionsNormalised(f0, []);
  }

  /** Once a prefix of the map throws, the whole map throws the same fault. */
  lemma {:induction false} FaultPersists(records: seq<Value>, step: (Value, nat) -> Result<Value, Fault>, n: nat, m: nat)
    requires n <= m <= |records| && MapPrefix(records, step, n).Err?
    ensures MapPrefix(records, step, m) == MapPrefix(records, step, n)
    decreases m
  {
    if m > n {
      FaultPersists(records, step, n, m - 1);
    }
  }

  /** The map repairs every record in place and order, or throws the fault of the first
      record that throws. */
  lemma {:induction false} RepairPrefixSpec(records: seq<Value>, seeds: nat -> IdSeed, n: nat)
    requires n <= |records|
    ensures RepairPrefix(records, seeds, n).Ok? <==> forall i :: 0 <= i < n ==> RepairRecord(records[i], seeds(i)).Ok?
    ensures RepairPrefix(records, seeds, n).Ok? ==>
      (|RepairPrefix(records, seeds, n).value| == n &&
       forall i :: 0 <= i < n ==> RepairRecord(records[i], seeds(i)) == Ok(RepairPrefix(records, seeds, n).value[i]))
    ensures RepairPrefix(records, seeds, n).Err? ==>
      (exists i :: 0 <= i < n &&
        RepairRecord(records[i], seeds(i)) == Err(RepairPrefix(records, seeds, n).error) &&
        forall j :: 0 <= j < i ==> RepairRecord(records[j], seeds(j)).Ok?)
  {
    MapPrefixOk(records, RecordStep(seeds), n);
    MapPrefixErr(records, RecordStep(seeds), n);
  }

  /** The map succeeds exactly when every step does, with step `i`'s result at position `i`. */
  lemma {:induction false} MapPrefixOk(records: seq<Value>, step: (Value, nat) -> Result<Value, Fault>, n: nat)
    requires n <= |records|
    ensures MapPrefix(records, step, n).Ok? <==> forall i :: 0 <= i < n ==> step(records[i], i).Ok?
    ensures MapPrefix(records, step, n).Ok? ==>
      (|MapPrefix(records, step, n).value| == n &&
       forall i :: 0 <= i < n ==> step(records[i], i) == Ok(MapPrefix(records, step, n).value[i]))
  {
    if n > 0 {
      MapPrefixOk(records, step, n - 1);
    }
  }

  /** A failing map gives the fault of the first step that throws. */
  lemma {:induction false} MapPrefixErr(records: seq<Value>, step: (Value, nat) -> Result<Value, Fault>, n: nat)
    requires n <= |records|
    ensures MapPrefix(records, step, n).Err? ==>
      (exists i :: 0 <= i < n &&
        step(records[i], i) == Err(MapPrefix(records, step, n).error) &&
        forall j :: 0 <= j < i ==> step(records[j], j).Ok?)
  {
    if n > 0 {
      MapPrefixErr(records, step, n - 1);
      MapPrefixOk(records, step, n - 1);
    }
  }

  /** An object whose properties the callback of `generatedRecipes.map` rewrites in place. */
  class RecipeObject {
    var fields: map<string, Value>

    constructor (fields: map<string, Value>)
      ensures this.fields == fields
    {
      this.fields := fields;
    }

    /** The body of the callback for an object record: the id, instructions and ingredients
        repairs, one after the other. When joining the instructions throws, the id repair has
        already happened; when cleaning the ingredients throws, the first two have. */
    method Repair(seed: IdSeed) returns (fault: Option<Fault>)
      modifies this
      ensures fault.None? ==> RepairFields(old(fields), seed) == Ok(fields)
      ensures fault.Some? ==> RepairFields(old(fields), seed) == Err(fault.value)
      ensures fault.Some? && WithInstructions(WithId(old(fields), seed)).Err? ==>
        fields == WithId(old(fields), seed)
      ensures fault.Some? && WithInstructions(WithId(old(fields), seed)).Ok? ==>
        fields == WithInstructions(WithId(old(fields), seed)).value
    {
      if !Present(Get(Obj(fields), "id")) {
        fields := fields["id" := Str(FreshId(seed))];
      }
      var instructions := Get(Obj(fields), "instructions");
      if instructions.Some? && instructions.value.Arr? {
        if !Convertible(instructions.value) {
          return Some(NoPrimitive);
        }
        fields := fields["instructions" := Str(JoinValues(instructions.value.items, "\n"))];
      } else if !(instructions.Some? && instructions.value.Str?) {
        fields := fields["instructions" := Str(NoInstructions)];
      }
      var ingredients := Get(Obj(fields), "ingredients");
      if !(ingredients.Some? && ingredients.value.Arr?) {
        fields := fields["ingredients" := Arr([Str(NoIngredients)])];
        fault := None;
      } else {
        match CleanIngredients(ingredients.value.items)
        case Err(f) =>
          fault := Some(f);
        case Ok(cleaned) =>
          fields := fields["ingredients" := Arr(cleaned)];
          fault := None;
      }
    }
  }

  /** `generatedRecipes.map(recipe => { ...; return recipe; })` over a parsed array: each
      object record is repaired in place and the records are collected in order. */
  method ProcessRecipes(records: seq<Value>, seeds: nat -> IdSeed) returns (r: Result<seq<Value>, Fault>)
    ensures r == RepairAll(records, seeds)
  {
    var processed: seq<Value> := [];
    var i := 0;
    while i < |records|
      invariant 0 <= i <= |records|
      invariant RepairPrefix(records, seeds, i) == Ok(processed)
    {
      var recipe := records[i];
      var outcome: Result<Value, Fault>;
      if recipe.Null? {
        outcome := Err(ReadOfNull("id"));
      } else if recipe.Obj? {
        var record := new RecipeObject(recipe.fields);
        var fault := record.Repair(seeds(i));
        outcome := if fault.Some? then Err(fault.value) else Ok(Obj(record.fields));
      } else {
        outcome := Ok(recipe);
      }
      PrefixStep(records, seeds, i, processed, outcome);
      if outcome.Err? {
        return Err(outcome.error);
      }
      processed := processed + [outcome.value];
      i := i + 1;
    }
    r := Ok(processed);
  }

  /** One more record of the map: either it is appended, or its fault is the fault of the
      whole map. */
  lemma PrefixStep(records: seq<Value>, seeds: nat -> IdSeed, n: nat, done: seq<Value>,
                   outcome: Result<Value, Fault>)
    requires n < |records| && RepairPrefix(records, seeds, n) == Ok(done)
    requires RepairRecord(records[n], seeds(n)) == outcome
    ensures outcome.Ok? ==> RepairPrefix(records, seeds, n + 1) == Ok(done + [outcome.value])
    ensures outcome.Err? ==> RepairAll(records, seeds) == Err(outcome.error)
  {
    if outcome.Err? {
      FaultPersists(records, RecordStep(seeds), n + 1, |records|);
    }
  }

  // ---------------------------------------------------------------------------------------
  // The handler

  /** One request: the prompt sent to the model (`None` when the model is not called) and the
      reply. */
  datatype Exchange = Exchange(sent: Option<Prompt>, reply: Reply)

  /** The handler. The model is `generate`, which yields the response text or the message of
      the error it throws; `parse` is `JSON.parse`; `seeds(i)` feeds the id of record `i`;
      `describe` gives the runtime's message for a TypeError thrown in the repair step. The
      prompt is built before the `try`, so a fault there leaves the request unanswered. */
  function Respond(body: Value, generate: Prompt -> Result<string, string>, parse: string -> Option<Value>,
                   seeds: nat -> IdSeed, describe: Fault -> string): (ex: Exchange)
    ensures ex.sent.Some? <==>
      RequestIngredients(body).Some? && BuildPrompt(body, RequestIngredients(body).value).Ok?
    ensures ex.sent.Some? ==> ex.sent.value == BuildPrompt(body, RequestIngredients(body).value).value
    ensures ex.reply.Unanswered? <==>
      RequestIngredients(body).Some? && BuildPrompt(body, RequestIngredients(body).value).Err?
    ensures ex.reply.Unanswered? ==> ex.reply.fault == NoPrimitive
    ensures ex.sent.Some? && generate(ex.sent.value).Err? ==>
      ex.reply == Failure(500, ServerErrorPrefix + generate(ex.sent.value).error)
    ensures ex.reply.Generated? ==> ex.reply.totalGenerated == |ex.reply.results|
  {
    match RequestIngredients(body)
    case None => Exchange(None, Failure(400, NoIngredientsError))
    case Some(ingredients) =>
      match BuildPrompt(body, ingredients)
      case Err(f) => Exchange(None, Unanswered(f))
      case Ok(prompt) => Exchange(Some(prompt), Answer(prompt, generate, parse, seeds, describe))
  }

  /** The body of the `try` once the prompt is built: the model call, the parse chain, the
      repair and the reply. Whatever is thrown comes back as a 500 with a message. */
  function Answer(prompt: Prompt, generate: Prompt -> Result<string, string>, parse: string -> Option<Value>,
                  seeds: nat -> IdSeed, describe: Fault -> string): (r: Reply)
    ensures !r.Unanswered?
    ensures r.Failure? ==> r.status == 500
    ensures generate(prompt).Err? ==> r == Failure(500, ServerErrorPrefix + generate(prompt).error)
    ensures r.Generated? ==> r.totalGenerated == |r.results|
  {
    match generate(prompt)
    case Err(message) => Failure(500, ServerErrorPrefix + message)
    case Ok(text) =>
      match ParseChain(text, parse)
      case Err(message) => Failure(500, message)
      case Ok(parsed) =>
        if parsed.Null? then Failure(500, ServerErrorPrefix + describe(ReadOfNull("map")))
        else if !parsed.Arr? then Failure(500, ServerErrorPrefix + describe(NotAnArray))
        else match RepairAll(parsed.items, seeds)
          case Err(f) => Failure(500, ServerErrorPrefix + describe(f))
          case Ok(results) => Generated(results, |results|)
  }

  /** A request without a non-empty `ingredients` array gets 400 and the model is never
      called; a 400 means exactly that. Any other request whose prompt converts calls the
      model with its prompt. */
  lemma RefusedRequestsSkipModel(body: Value, generate: Prompt -> Result<string, string>,
                                 parse: string -> Option<Value>, seeds: nat -> IdSeed, describe: Fault -> string)
    ensures var ex := Respond(body, generate, parse, seeds, describe);
      !(Get(body, "ingredients").Some? && Get(body, "ingredients").value.Arr? &&
        |Get(body, "ingredients").value.items| > 0) ==>
      ex == Exchange(None, Failure(400, NoIngredientsError))
    ensures var ex := Respond(body, generate, parse, seeds, describe);
      (ex.reply.Failure? && ex.reply.status == 400) <==>
      !(Get(body, "ingredients").Some? && Get(body, "ingredients").value.Arr? &&
        |Get(body, "ingredients").value.items| > 0)
    ensures var ex := Respond(body, generate, parse, seeds, describe);
      Get(body, "ingredients").Some? && Get(body, "ingredients").value.Arr? &&
      |Get(body, "ingredients").value.items| > 0 &&
      BuildPrompt(body, Get(body, "ingredients").value.items).Ok? ==>
      ex.sent == Some(BuildPrompt(body, Get(body, "ingredients").value.items).value)
  {
  }

  /** The handler as evidently intended: the prompt built inside the `try`, so that a fault in
      building it is answered like every other fault, with 500 "Failed to generate recipes.
      Server error: ...". */
  function RespondInTry(body: Value, generate: Prompt -> Result<string, string>, parse: string -> Option<Value>,
                        seeds: nat -> IdSeed, describe: Fault -> string): (ex: Exchange)
    ensures !ex.reply.Unanswered?
    ensures ex.sent.Some? <==>
      RequestIngredients(body).Some? && BuildPrompt(body, RequestIngredients(body).value).Ok?
  {
    match RequestIngredients(body)
    case None => Exchange(None, Failure(400, NoIngredientsError))
    case Some(ingredients) =>
      match BuildPrompt(body, ingredients)
      case Err(f) => Exchange(None, Failure(500, ServerErrorPrefix + describe(f)))
      case Ok(prompt) => Exchange(Some(prompt), Answer(prompt, generate, parse, seeds, describe))
  }

  /** The intended handler answers every request, with 400 or 500 and a non-empty message when
      it fails; it does what the written handler does wherever that one answers, and turns
      the unanswered requests into 500 replies carrying the fault's message. */
  lemma RespondInTryAnswers(body: Value, generate: Prompt -> Result<string, string>,
                            parse: string -> Option<Value>, seeds: nat -> IdSeed, describe: Fault -> string)
    ensures var ex := RespondInTry(body, generate, parse, seeds, describe);
      ex.reply.Failure? ==> ex.reply.error != "" && (ex.reply.status == 400 || ex.reply.status == 500)
    ensures var written := Respond(body, generate, parse, seeds, describe);
      !written.reply.Unanswered? ==> RespondInTry(body, generate, parse, seeds, describe) == written
    ensures var written := Respond(body, generate, parse, seeds, describe);
      written.reply.Unanswered? ==>
      RespondInTry(body, generate, parse, seeds, describe) ==
        Exchange(None, Failure(500, ServerErrorPrefix + describe(written.reply.fault)))
  {
    var ex := RespondInTry(body, generate, parse, seeds, describe);
    if ex.reply.Failure? && ex.sent.Some? {
      AnswerFailureText(ex.sent.value, generate, parse, seeds, describe);
    }
  }

  /** Every failure the `try` sends carries a non-empty message. */
  lemma AnswerFailureText(prompt: Prompt, generate: Prompt -> Result<string, string>,
                          parse: string -> Option<Value>, seeds: nat -> IdSeed, describe: Fault -> string)
    ensures var r := Answer(prompt, generate, parse, seeds, describe);
      r.Failure? ==> r.error != ""
  {
    match generate(prompt)
    case Err(_) =>
    case Ok(text) =>
      ParseChainStages(text, parse);
  }

  /** A body whose `cuisine` is an object with its own `toString` property: the written handler
      throws while building the prompt, calls no model and sends no reply, where the intended
      one answers 500. */
  lemma UnansweredRequest(generate: Prompt -> Result<string, string>, parse: string -> Option<Value>,
                          seeds: nat -> IdSeed, describe: Fault -> string)
    ensures var body := Obj(map["ingredients" := Arr([Str("egg")]), "cuisine" := Obj(map["toString" := Num(1)])]);
      Respond(body, generate, parse, seeds, describe) == Exchange(None, Unanswered(NoPrimitive)) &&
      RespondInTry(body, generate, parse, seeds, describe) ==
        Exchange(None, Failure(500, ServerErrorPrefix + describe(NoPrimitive)))
  {
    var body := Obj(map["ingredients" := Arr([Str("egg")]), "cuisine" := Obj(map["toString" := Num(1)])]);
    assert Get(body, "cuisine") == Some(Obj(map["toString" := Num(1)]));
    assert !Converts(Get(body, "cuisine"));
  }

  /** A 200 reply carries one repaired record per element of the parsed array, in order, and
      `totalGenerated` is their number. Every failure carries a non-empty message. */
  lemma SuccessMatchesParsedArray(body: Value, generate: Prompt -> Result<string, string>,
                                  parse: string -> Option<Value>, seeds: nat -> IdSeed, describe: Fault -> string)
    ensures var ex := Respond(body, generate, parse, seeds, describe);
      ex.reply.Generated? ==>
        (ex.sent.Some? && generate(ex.sent.value).Ok? &&
         exists items :: ParseChain(generate(ex.sent.value).value, parse) == Ok(Arr(items)) &&
           |items| == |ex.reply.results| == ex.reply.totalGenerated &&
           forall i :: 0 <= i < |items| ==> RepairRecord(items[i], seeds(i)) == Ok(ex.reply.results[i]))
    ensures var ex := Respond(body, generate, parse, seeds, describe);
      ex.reply.Failure? ==> ex.reply.error != "" && (ex.reply.status == 400 || ex.reply.status == 500)
  {
    var ex := Respond(body, generate, parse, seeds, describe);
    if ex.reply.Generated? {
      GeneratedFromParsedArray(ex.sent.value, generate, parse, seeds, describe);
    }
    if ex.reply.Failure? && ex.sent.Some? {
      AnswerFailureText(ex.sent.value, generate, parse, seeds, describe);
    }
  }

  /** The success case of `SuccessMatchesParsedArray`, on the body of the `try`. */
  lemma GeneratedFromParsedArray(prompt: Prompt, generate: Prompt -> Result<string, string>,
                                 parse: string -> Option<Value>, seeds: nat -> IdSeed, describe: Fault -> string)
    requires Answer(prompt, generate, parse, seeds, describe).Generated?
    ensures var r := Answer(prompt, generate, parse, seeds, describe);
      generate(prompt).Ok? &&
      exists items :: ParseChain(generate(prompt).value, parse) == Ok(Arr(items)) &&
        |items| == |r.results| == r.totalGenerated &&
        forall i :: 0 <= i < |items| ==> RepairRecord(items[i], seeds(i)) == Ok(r.results[i])
  {
    var items := ParseChain(generate(prompt).value, parse).value.items;
    RepairPrefixSpec(items, seeds, |items|);
  }

  /** Once the model's text has parsed, the reply is 200 exactly when the parsed value is an
      array of repairable records, with one result per record; otherwise whatever the repair
      throws (a null read for a parsed `null`, `NotAnArray` for any other non-array) comes back
      as 500 "Failed to generate recipes. Server error: ...". */
  lemma RepairOutcome(body: Value, generate: Prompt -> Result<string, string>,
                      parse: string -> Option<Value>, seeds: nat -> IdSeed, describe: Fault -> string)
    requires RequestIngredients(body).Some? && BuildPrompt(body, RequestIngredients(body).value).Ok?
    requires generate(BuildPrompt(body, RequestIngredients(body).value).value).Ok?
    requires ParseChain(generate(BuildPrompt(body, RequestIngredients(body).value).value).value, parse).Ok?
    ensures var parsed := ParseChain(generate(BuildPrompt(body, RequestIngredients(body).value).value).value, parse).value;
      var reply := Respond(body, generate, parse, seeds, describe).reply;
      (reply.Generated? <==> parsed.Arr? && forall v :: v in parsed.items ==> Repairable(v)) &&
      (reply.Generated? ==> reply.totalGenerated == |parsed.items|) &&
      (parsed.Null? ==> reply == Failure(500, ServerErrorPrefix + describe(ReadOfNull("map")))) &&
      (!parsed.Arr? && !parsed.Null? ==> reply == Failure(500, ServerErrorPrefix + describe(NotAnArray))) &&
      (reply.Failure? ==> exists f :: reply == Failure(500, ServerErrorPrefix + describe(f)))
  {
    var parsed := ParseChain(generate(BuildPrompt(body, RequestIngredients(body).value).value).value, parse).value;
    if parsed.Arr? {
      var items := parsed.items;
      RepairPrefixSpec(items, seeds, |items|);
      forall i | 0 <= i < |items| ensures RepairRecord(items[i], seeds(i)).Ok? <==> Repairable(items[i]) {
        RepairedRecordShape(items[i], seeds(i));
      }
      assert (forall v :: v in items ==> Repairable(v)) <==> (forall i :: 0 <= i < |items| ==> Repairable(items[i]));
    }
  }
}
