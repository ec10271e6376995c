/** The page and the handler together: what the page sends is what the handler validates and
    puts in the prompt, and what the handler answers is what the page shows. */
module Flow {
  import opened Wrappers
  import opened Text
  import opened Json
  import opened Seqs
  import Server
  import Client

  /** A request the page sends always passes the handler's validation, with the pantry as its
      ingredients, and its prompt is always built, since every value in it is a string. The
      prompt lists the pantry joined by ", ", carries a cuisine or meal type line exactly when
      the trimmed selection is not empty, and a difficulty line exactly when the untrimmed
      selection is not empty. */
  lemma SentRequestPrompt(pantry: seq<string>, prefs: Client.Preferences)
    requires Client.Submit(pantry, prefs).Send?
    ensures var body := Client.RequestJson(Client.Submit(pantry, prefs).body);
      Server.RequestIngredients(body) == Some(Strings(pantry))
    ensures Server.BuildPrompt(Client.RequestJson(Client.Submit(pantry, prefs).body), Strings(pantry)).Ok?
    ensures var prompt := Server.BuildPrompt(Client.RequestJson(Client.Submit(pantry, prefs).body), Strings(pantry)).value;
      prompt.ingredientsList == Join(pantry, ", ") &&
      (prompt.cuisineLine != "" <==> Trim(prefs.cuisine) != "") &&
      (prompt.cuisineLine != "" ==> prompt.cuisineLine == "Cuisine preference: " + Trim(prefs.cuisine)) &&
      (prompt.mealTypeLine != "" <==> Trim(prefs.mealType) != "") &&
      (prompt.difficultyLine != "" <==> prefs.difficulty != "")
  {
    var body := Client.RequestJson(Client.Submit(pantry, prefs).body);
    Client.SentFields(pantry, prefs);
    assert |Strings(pantry)| == |pantry| > 0;
    Server.PromptLines(body, pantry);
  }

  /** A request the page sends is always answered: the written handler and the intended one
      behave alike on it, and the model is called with its prompt. */
  lemma PageRequestsAnswered(pantry: seq<string>, prefs: Client.Preferences,
                             generate: Server.Prompt -> Result<string, string>, parse: string -> Option<Value>,
                             seeds: nat -> Server.IdSeed, describe: Server.Fault -> string)
    requires Client.Submit(pantry, prefs).Send?
    ensures var body := Client.RequestJson(Client.Submit(pantry, prefs).body);
      var ex := Server.Respond(body, generate, parse, seeds, describe);
      !ex.reply.Unanswered? && ex.sent == Some(Server.BuildPrompt(body, Strings(pantry)).value) &&
      ex == Server.RespondInTry(body, generate, parse, seeds, describe)
  {
    SentRequestPrompt(pantry, prefs);
    var body := Client.RequestJson(Client.Submit(pantry, prefs).body);
    Server.RespondInTryAnswers(body, generate, parse, seeds, describe);
  }

  /** The course selection is sent but never changes the prompt. */
  lemma CourseIgnored(pantry: seq<string>, prefs: Client.Preferences, course: string)
    requires Client.Submit(pantry, prefs).Send?
    ensures var other := prefs.(course := course);
      Server.BuildPrompt(Client.RequestJson(Client.Submit(pantry, prefs).body), Strings(pantry)) ==
      Server.BuildPrompt(Client.RequestJson(Client.Submit(pantry, other).body), Strings(pantry))
  {
    var other := prefs.(course := course);
    Client.SentFields(pantry, prefs);
    Client.SentFields(pantry, other);
  }

  /** Every failure the handler answers with reaches the page as
      "Failed to generate recipe: <error>. Please try again.". */
  lemma FailureReachesPage(body: Value, generate: Server.Prompt -> Result<string, string>,
                           parse: string -> Option<Value>, seeds: nat -> Server.IdSeed,
                           describe: Server.Fault -> string, runtimeError: Client.PageFault -> string)
    ensures var reply := Server.Respond(body, generate, parse, seeds, describe).reply;
      reply.Failure? ==>
        Client.AfterResponse(false, Server.ReplyStatus(reply), Some(Server.ReplyBody(reply)), runtimeError) ==
        Client.ErrorShown(Client.FailureText(reply.error))
  {
    Server.SuccessMatchesParsedArray(body, generate, parse, seeds, describe);
  }

  /** A 200 reply shows the "no recipes" message when it carries no results, and otherwise,
      unless a card fails to render, one card per showable result in the order of the reply. */
  lemma GeneratedReachesPage(body: Value, generate: Server.Prompt -> Result<string, string>,
                             parse: string -> Option<Value>, seeds: nat -> Server.IdSeed,
                             describe: Server.Fault -> string, runtimeError: Client.PageFault -> string)
    ensures var reply := Server.Respond(body, generate, parse, seeds, describe).reply;
      reply.Generated? && reply.results == [] ==>
        Client.AfterResponse(true, 200, Some(Server.ReplyBody(reply)), runtimeError) ==
        Client.Shown(Client.Info(Client.NoRecipesMessage))
    ensures var reply := Server.Respond(body, generate, parse, seeds, describe).reply;
      reply.Generated? && reply.results != [] &&
      (forall r :: r in reply.results && Client.Showable(r) ==> Client.RenderFault(r).None?) ==>
        Client.AfterResponse(true, 200, Some(Server.ReplyBody(reply)), runtimeError) ==
        Client.Shown(Client.Cards(Filter(Client.Showable, reply.results)))
    ensures var reply := Server.Respond(body, generate, parse, seeds, describe).reply;
      reply.Generated? && reply.results != [] ==>
        var cards := Filter(Client.Showable, reply.results);
        Client.FirstRenderFault(cards).Some? ==>
          Client.AfterResponse(true, 200, Some(Server.ReplyBody(reply)), runtimeError) ==
          Client.ErrorShown(Client.FailureText(runtimeError(Client.FirstRenderFault(cards).value)))
  {
    var reply := Server.Respond(body, generate, parse, seeds, describe).reply;
    if reply.Generated? {
      GeneratedBodyShown(reply.results, reply.totalGenerated, runtimeError);
    }
  }

  /** The page's side of `GeneratedReachesPage`, for any 200 body the handler builds. */
  lemma GeneratedBodyShown(results: seq<Value>, total: nat, runtimeError: Client.PageFault -> string)
    ensures var shown := Client.AfterResponse(true, 200, Some(Server.ReplyBody(Server.Generated(results, total))), runtimeError);
      (results == [] ==> shown == Client.Shown(Client.Info(Client.NoRecipesMessage))) &&
      (results != [] && (forall r :: r in results && Client.Showable(r) ==> Client.RenderFault(r).None?) ==>
        shown == Client.Shown(Client.Cards(Filter(Client.Showable, results)))) &&
      (results != [] && Client.FirstRenderFault(Filter(Client.Showable, results)).Some? ==>
        shown == Client.ErrorShown(Client.FailureText(runtimeError(Client.FirstRenderFault(Filter(Client.Showable, results)).value))))
  {
    var body := Server.ReplyBody(Server.Generated(results, total));
    assert Get(body, "results") == Some(Arr(results));
    if results != [] {
      FilterMembers(Client.Showable, results);
    }
  }

  /** A record the handler repaired gets a card exactly when its `name` is truthy and its
      `instructions` text is not empty, and its ingredients never make the card throw: it
      throws on an `id` that does not convert to text, then on a difficulty that is truthy but
      not a string, then on a template field that does not convert, and otherwise renders. */
  lemma RepairedRecordOnPage(v: Value, seed: Server.IdSeed)
    requires v.Obj? && Server.RepairRecord(v, seed).Ok?
    ensures var r := Server.RepairRecord(v, seed).value;
      (Client.Showable(r) <==> Present(Get(v, "name")) && Get(r, "instructions").value.s != "") &&
      Client.RenderFault(r) ==
        (if !Converts(Get(v, "id")) then Some(Client.NoPrimitive)
         else if Present(Get(v, "difficulty")) && !Get(v, "difficulty").value.Str? then Some(Client.DifficultyNotText)
         else if !Client.TemplateConverts(v) then Some(Client.NoPrimitive)
         else None)
  {
    RepairedCardFields(v, seed);
    var r := Server.RepairRecord(v, seed).value;
    StringListRenders(r.fields["ingredients"].items);
  }

  /** The repair keeps every field the card shows apart from `id`, and an `id` it sets is a
      string, so the repaired `id` converts to text exactly when the record's own does. */
  lemma RepairedCardFields(v: Value, seed: Server.IdSeed)
    requires v.Obj? && Server.RepairRecord(v, seed).Ok?
    ensures var r := Server.RepairRecord(v, seed).value;
      r.Obj? && Get(r, "ingredients").Some? && Get(r, "ingredients").value.Arr? &&
      (forall y :: y in Get(r, "ingredients").value.items ==> y.Str?) &&
      (Client.Showable(r) <==> Present(Get(v, "name")) && Get(r, "instructions").value.s != "") &&
      Get(r, "difficulty") == Get(v, "difficulty") &&
      (Converts(Get(r, "id")) <==> Converts(Get(v, "id"))) &&
      (Client.TemplateConverts(r) <==> Client.TemplateConverts(v))
  {
    Server.RepairedRecordShape(v, seed);
    Server.RepairedId(v.fields, seed);
    var r := Server.RepairRecord(v, seed).value;
    RepairKeepsField(v, r, "name");
    RepairKeepsField(v, r, "difficulty");
    RepairKeepsField(v, r, "prep_time");
    RepairKeepsField(v, r, "cook_time");
    RepairKeepsField(v, r, "cuisine");
    RepairKeepsField(v, r, "course");
    RepairKeepsField(v, r, "description");
  }

  /** A property outside the three the repair rewrites reads the same before and after. */
  lemma RepairKeepsField(v: Value, r: Value, k: string)
    requires v.Obj? && r.Obj? && r.fields.Keys == v.fields.Keys + {"id", "instructions", "ingredients"}
    requires forall j :: j in v.fields && j !in {"id", "instructions", "ingredients"} ==> r.fields[j] == v.fields[j]
    requires k !in {"id", "instructions", "ingredients"}
    ensures Get(r, k) == Get(v, k)
  {
  }

  /** A list of strings, the shape the repair leaves in `ingredients`, never makes a card throw. */
  lemma StringListRenders(items: seq<Value>)
    requires forall y :: y in items ==> y.Str?
    ensures !Client.LengthThrows(Some(Arr(items))) && !Client.IngredientsThrow(Some(Arr(items))) &&
            !Client.ListThrows(Some(Arr(items)))
  {
    assert forall i :: 0 <= i < |items| ==> items[i] in items;
    assert forall i :: 0 <= i < |items| ==> Convertible(items[i]);
  }
}
