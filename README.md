# ChefMate recipe generator — a Dafny model

ChefMate is a small web application. In the browser, the user builds a pantry of ingredient
names and picks a few preferences (cuisine, meal type, course, difficulty). The page posts them
to `/api/generate-recipe`. The server turns the request into a prompt for a language model,
recovers a JSON array of recipes from the model's text, repairs each recipe record and sends
the records back. The page then shows a card for every usable record, or an error message.

The model covers:

- **`Pantry`** (`pantry.dfy`): the pantry list the page keeps and changes in place. It is a
  class `PantryList` whose `Add`, `Remove` and `Clear` methods keep the invariant `Clean`: no
  empty entry, no entry with white space at either end, no duplicate. The methods are proved
  against the value functions `Added` and `Spliced`. The markup `renderPantry` writes for an
  entry is modelled too, with an escaped form of it.
- **`Client`** (`client.dfy`): the page's decisions, as functions. These are refusing an empty
  pantry, packing the request body, choosing the cards to show, the difficulty badge, and the
  text of the error shown after a failed request.
- **`Server`** (`server.dfy`): the handler. It covers request validation, the preference lines
  of the prompt, and the three-stage parse chain. It also covers the repair of `id`,
  `instructions` and `ingredients` in every record.
  - `RecipeObject.Repair` changes one record object in place.
  - `ProcessRecipes` is the `.map` loop over the parsed array.
  - `Respond` is the whole handler.
- **`Fence`** (`fence.dfy`): the regular expression ``/```json\n([\s\S]*?)\n```/`` as a scan.
  It is proved to report the leftmost match with the shortest capture.
- **`Quantity`** (`quantity.dfy`): the quantity-and-unit regular expression of the ingredient
  repair as a scan. It is proved to report the leftmost, longest match of the expression's
  grammar (`Token`).
- **`Flow`** (`flow.dfy`): the page and the handler together. A request the page sends always
  passes validation. Every error reply reaches the page as "Failed to generate recipe: ...".
  A 200 reply shows exactly its showable records, unless one of their cards throws while it
  is rendered; the page then shows the error text of the first card that throws.
- **Support modules:**
  - `Text` (`text.dfy`): JavaScript `trim` with the white-space set of `\s`, decimal
    numerals and ASCII case.
  - `Json` (`json.dfy`): JSON values with JavaScript truthiness, property reads and `String(v)`.
    `String(v)` throws a TypeError for an object that has its own `toString` property, since a
    parsed `toString` is never callable. It also throws for an array that holds such an
    object. `Convertible` says which values convert without throwing.
  - `Seqs` (`seqs.dfy`): `filter`.
  - `Wrappers` (`wrappers.dfy`): `Option` and `Result`.

The parts that the program gets from its environment are parameters of the model:
- `JSON.parse` is a partial function `parse: string -> Option<Value>`.
- The language model is `generate: Prompt -> Result<string, string>`. It yields either the
  response text or the message of the error it throws.
- `Date.now()` and `Math.random()` in a fresh id are an `IdSeed` per record.
- The runtime's error messages are `describe: Fault -> string` on the server and
  `runtimeError: PageFault -> string` on the page. Each has one case per kind of exception:
  on the page these are a SyntaxError for an OK body that is not JSON, a read of `results` or
  `error` on a `null` body, and the TypeErrors of a card whose difficulty or ingredients have
  the wrong type, or a value that does not convert to text.

Some behaviours of the code are easy to misread. The model follows the code in each:

- **`course`:** the page sends it, but the handler never destructures `course`
  (server.js:33), so it has no effect on the prompt.
- **Failed fenced block:** when a non-empty fenced `json` block fails to parse, the handler
  answers 500 at once with a message of its own (server.js:98-100). It does not go on to try
  the trimmed text.
- **Two parse-failure messages:** the fenced-block failure and the trimmed-text failure have
  two distinct 500 messages.
- **Quantity stripping:** the expression is not anchored to the start of the entry. It removes
  the first match anywhere in the entry. That match starts at the first position where the
  whole pattern matches, which is not always the first run of digits. So `"2 garlic"` becomes
  `"arlic"`, and `"2 eggs, 1 cup milk"` loses `1 cup `.
- **A parsed `null`:** `generatedRecipes.map` on `null` is a read of `map` on null, a
  different TypeError from the one for a parsed number, string, boolean or object.
- **A prompt that cannot be built:** the prompt is built before the handler's `try`
  (server.js:39-49, with the `try` at server.js:81). A fault there rejects the handler's
  promise and sends no reply. The model writes this as `Reply.Unanswered`. The client then
  gets no answer or an error page, depending on the Express and Node versions, which are not
  part of the model. See "## Findings".
- **A remove button's index:** `data-index` is passed as it is to `splice`. A negative start
  counts back from the end, so the model's `Spliced` takes any integer start.

## Model

| member | source | states |
|---|---|---|
| Pantry.PantryList.constructor | public/script.js:21 | the pantry starts empty and clean |
| Pantry.PantryList.Add | public/script.js:55-61 | the new list is `Added(old list, old input)`; the input box is cleared exactly when something was appended; the pantry stays clean |
| Pantry.AddedAppendsOrKeeps | public/script.js:56-58 | the trimmed input is appended at the end exactly when it is non-empty and not already present, compared exactly; a duplicate or a whitespace-only input leaves the list unchanged |
| Pantry.AddedKeepsClean | public/script.js:55-58 | adding preserves: no empty entry, no untrimmed entry, no duplicate |
| Pantry.PantryList.Remove | public/script.js:73-77 | the new list is `Spliced(old list, start)` for any integer start, and the pantry stays clean |
| Pantry.SplicedShifts | public/script.js:76 | on a non-empty list, `splice(start, 1)` with a start before the end deletes exactly one entry: the one at `start`, for a negative start the one `-start` places from the end, or the first when that lies before the front; the list is one shorter, earlier entries stay in place and later ones move down by one; a start at or past the end, or an empty list, changes nothing |
| Pantry.SplicedKeepsClean | public/script.js:76 | removing with any start preserves the pantry invariant |
| Pantry.RemovedAtKeepsClean | public/script.js:76 | deleting the entry at a position in range preserves the pantry invariant |
| Pantry.RemoveButtons | public/script.js:44-48 | one remove button per entry, each with an index in range |
| Pantry.ButtonRemovesOne | public/script.js:44-77 | clicking a remove button the template wrote shortens the list by one and, in a clean pantry, removes that button's entry |
| Pantry.InjectedButton | public/script.js:44-48 | an entry that is itself a remove button with `data-index="-1"` puts that button inside the entry's span, and clicking it removes the last entry, not this one |
| Pantry.Escaped | public/script.js:47 | an entry written as text has no `<` left to open a tag |
| Pantry.EscapedRoundTrip | public/script.js:47 | the page shows an escaped entry exactly as it was typed |
| Pantry.UnescapeChar | public/script.js:47 | reading one escaped character back gives that character |
| Pantry.SafeEntryText | public/script.js:44-48 | whatever an entry holds, its escaped markup is the template's span holding text that opens no tag and shows as the entry, followed by the entry's own remove button |
| Pantry.PantryList.Clear | public/script.js:82-85 | the pantry becomes empty and clean, and the input box is unchanged |
| Client.Submit | public/script.js:188-226 | an empty pantry is refused with "Please add at least one ingredient to your pantry…" and nothing is sent; otherwise the body carries the pantry unchanged, trimmed cuisine, meal type and course, and the difficulty untrimmed |
| Client.SentFields | public/script.js:220-226 | the body the server receives has exactly the five properties `ingredients`, `cuisine`, `mealType`, `course` and `difficulty`, holding the pantry, the trimmed cuisine, meal type and course, and the untrimmed difficulty |
| Client.ShownCards | public/script.js:109-120 | a missing, non-array or empty `results` gives the "could not generate any recipes" message; otherwise the cards are the results that are truthy and have a truthy `name` and `instructions`, in the order of `results` |
| Client.DifficultyBadge | public/script.js:126-132 | no badge can be built, so rendering throws, exactly when the difficulty is truthy but not a string |
| Client.BadgeAgrees | public/script.js:126-132 | a falsy difficulty gives "N/A" and no class; a string gives a caption with its first letter upper-cased and the class `difficulty-` plus the caption in lower case |
| Client.RenderFault | public/script.js:123-141 | the faults in the code's order: an `id` that does not convert to text throws first; then a truthy non-string difficulty; then a card field that is truthy and does not convert (`name`, `prep_time`, `cook_time`, `cuisine`, `course`, `description`); then an object `length` that does not convert; then ingredients that are a non-empty string or an object with a positive `length`; then a non-empty ingredient array holding a value that does not convert. A card renders exactly when none of these holds |
| Client.FirstRenderFault | public/script.js:116-147 | rendering the cards one after another fails exactly when some card throws, and then with the fault of the first card that throws |
| Client.NonOkMessage | public/script.js:229-231 | a non-empty string the server sent as `error` is the message as it is; an `error` that does not convert to text gives the runtime's message for that TypeError |
| Client.NonOkMessageCases | public/script.js:229-231 | an unparseable error body gives "Unknown server error."; a `null` body gives the runtime's message for reading `error` on null; a truthy `error` that converts gives its text, one that does not gives the runtime's message; without a truthy `error` the message is "HTTP error! status: " followed by the decimal digits of the status, which read back as the status |
| Client.AfterResponse | public/script.js:229-248 | a non-OK response shows "Failed to generate recipe: <message>. Please try again."; an OK body that does not parse or is `null` shows the runtime's message for that exception; otherwise the page shows what `displayRecipes` chooses exactly when no shown card throws, and else the message of a card that throws |
| Server.RequestIngredients | server.js:33-37 | a request passes validation exactly when its `ingredients` is a non-empty array, whose elements are then the ingredients |
| Server.RefusedRequestsSkipModel | server.js:34-49 | a request without a non-empty `ingredients` array gets 400 "Please provide at least one ingredient." and the model is never called; a 400 means exactly that; every other request whose prompt can be built calls the model with that prompt |
| Server.BuildPrompt | server.js:39-49 | the prompt is built exactly when every ingredient and every cuisine, meal type and difficulty converts to text, and otherwise throws the TypeError of a value with its own `toString`; when built, each preference line is non-empty exactly when that field is truthy |
| Server.PromptLines | server.js:39-49 | for string ingredients the prompt is built exactly when the three preferences convert; it then lists the ingredients joined by ", ", and each cuisine, meal type and difficulty line that is present is its caption followed by the field's text |
| Server.CourseNeverRead | server.js:33 | whatever `course` holds, the prompt is the same |
| Server.ParseChain | server.js:88-111 | an error is one of the two parse-failure messages |
| Server.ParseChainStages | server.js:88-111 | a direct parse that succeeds is used; otherwise a non-empty fenced capture is parsed, its value is used, and its failure gives the markdown-block message, without trying the trimmed text; only without such a capture is the trimmed text parsed, its value is used, and its failure gives the "valid recipe array" message |
| Server.ParseChainWrappings | server.js:88-111 | a trimmed, non-empty JSON text gives its value when given bare. Inside a ```` ```json ```` block it gives the same value, provided it holds no closing fence and the whole block does not parse directly. Padded with white space it gives the same value, provided it holds no three backticks and the padded text does not parse directly |
| Server.NoFenceInPadded | server.js:93 | text without a fence, padded with white space, has no fenced block |
| Fence.ExtractFenced | server.js:93-94 | the expression matches exactly when some opener is followed by a closer, and the capture lies between the leftmost such opener and the earliest closer after it |
| Fence.FencedRoundTrip | server.js:93-96 | a document without a closing fence comes back whole from a fenced block |
| Quantity.FirstQuantityIsRegexMatch | server.js:129 | the scan finds no match exactly when the expression's grammar matches nowhere; otherwise it reports a grammar match at the leftmost position where one exists, and the longest one there |
| Quantity.AmountEndSpec | server.js:129 | `[\d\.\/]+` is taken greedily: the run holds only amount characters and stops at the first other one |
| Quantity.SpaceEndSpec | server.js:129 | `\s*` is taken greedily: the run holds only white space and stops at the first other character |
| Quantity.UnitFromSpec | server.js:129 | the unit alternatives are tried in order and none is missed: no unit is found only when none occurs |
| Quantity.FirstFoundLeftmost | server.js:129 | the engine tries one position after another: every position before the reported one found no match, and with no report no position did |
| Quantity.FirstQuantitySound | server.js:129 | the reported span is a match of the expression's grammar |
| Quantity.FirstQuantityCovers | server.js:129 | every grammar match starts after the reported span's start, or at it and ends no later |
| Quantity.MatchAtComplete | server.js:129 | wherever the grammar matches, the scan matches at that position too, at least as far |
| Quantity.FirstQuantity | server.js:129 | a reported match is a non-empty span inside the entry |
| Quantity.StripQuantity | server.js:129 | an entry without a match is unchanged; one with a match loses exactly the reported span and gets shorter |
| Quantity.QuantityOfCups | server.js:129 | in "2 cups flour" the match is "2 cups ", at the start |
| Quantity.QuantityOfGarlic | server.js:129 | in "2 garlic" the match is "2 g", at the start |
| Quantity.CleanEntry | server.js:129 | an entry after `replace(...).trim()` has no white space at either end and is no longer than before |
| Quantity.NoQuantityOnlyTrims | server.js:129 | an entry with no quantity-and-unit is only trimmed |
| Quantity.CleanEntryCups | server.js:129 | "2 cups flour" becomes "flour" |
| Quantity.CleanEntryGarlic | server.js:129 | "2 garlic" becomes "arlic": the unit `g` matches the start of the word |
| Server.FreshId | server.js:117 | a generated id starts with "recipe_" |
| Server.WithId | server.js:116-118 | after the id repair the record has an `id` property and it is truthy, and no property is lost |
| Server.IdKeptOrFresh | server.js:116-118 | a truthy `id` is kept; a falsy or missing one is replaced by a fresh `recipe_` id; no other property changes |
| Server.WithInstructions | server.js:120-124 | the instructions repair throws exactly when `instructions` is an array that does not convert to text; otherwise the record has an `instructions` property, it is a string, and no property is lost |
| Server.InstructionsNormalised | server.js:120-124 | the repair throws exactly on an array that does not convert; otherwise `instructions` ends up a string: a string (even empty) is kept and the record is unchanged, a list of strings becomes its elements joined by newlines, and anything else, or no `instructions`, becomes "Instructions not available."; normalising twice is normalising once; no other property changes |
| Server.CleanEntries | server.js:129 | the entries map succeeds exactly when every entry is a string, and then gives one entry per entry |
| Server.MapEntriesEach | server.js:129 | the map over the ingredient entries puts the mapped entry `i` at position `i` |
| Server.MapEntriesConcat | server.js:129 | mapping a concatenation is concatenating the mapped parts |
| Server.CleanEntriesEach | server.js:129 | entry `i` of the map is entry `i` stripped of its first quantity and trimmed |
| Server.CleanIngredientsSpec | server.js:129 | the ingredients repair succeeds exactly when every entry is a string; it keeps no more entries than it had, every kept entry is longer than two characters with no white space at either end and is the cleaned form of an entry of the list, and every cleaned entry longer than two characters is kept |
| Server.CleanedEntriesFrom | server.js:129 | every entry the repair keeps is some original entry stripped of its quantity and trimmed |
| Server.CleanIngredientsConcat | server.js:129 | the ingredients repair works entry by entry: cleaning a concatenation is concatenating the cleaned parts, which is the order-preservation of `map` and `filter` |
| Server.IngredientsRepairThrows | server.js:126-130 | the ingredients step throws exactly when `ingredients` is an array holding something other than a string |
| Server.WithIngredients | server.js:126-130 | the ingredients repair can throw only on an array; when it does not throw, the record has an `ingredients` array and no property is lost |
| Server.IngredientsShape | server.js:126-130 | a non-array or missing `ingredients` becomes ["Ingredients not specified."]; an array becomes its cleaned entries, all trimmed strings longer than two characters; no other property changes |
| Server.RepairRecord | server.js:114-132 | a `null` record throws on the read of `id`; a string, number, boolean or array comes out as it went in |
| Server.RepairedRecordShape | server.js:114-132 | a record is repaired without throwing exactly when it is `Repairable`: not null and, as an object, its `instructions` array converts to text and its `ingredients` array holds only strings; a repaired object has a truthy id, string instructions, clean ingredient strings and every other property unchanged; non-object, non-null records come out as they went in |
| Server.RepairedFieldsShape | server.js:116-130 | the object case of the repair: it succeeds exactly when an `instructions` array converts and an `ingredients` array holds only strings, and then gives the shape above |
| Server.RepairedId | server.js:116-118 | the whole repair keeps a truthy `id` and otherwise sets a string one |
| Server.FirstRepairsKeepIngredients | server.js:116-124 | the id and instructions repairs throw exactly when the record's `instructions` is an array that does not convert, and otherwise leave `ingredients` as it was |
| Server.FirstRepairsShape | server.js:116-124 | after the id and instructions repairs the record has a truthy `id`, string `instructions`, and every other property as it was |
| Server.RecipeObject.Repair | server.js:116-130 | changing a record object in place leaves exactly the fields `RepairFields` computes, or reports the fault the repair throws; when joining the instructions throws, only the id repair has happened, and when cleaning the ingredients throws, the first two have |
| Server.FaultPersists | server.js:114 | once the map throws at one element, every longer prefix of the map throws that same fault |
| Server.MapPrefixOk | server.js:114 | `map` with a callback that may throw succeeds exactly when the callback does on every element, and then puts the result for element `i` at position `i` |
| Server.MapPrefixErr | server.js:114 | a failing `map` gives the fault of the first element whose callback throws |
| Server.RepairPrefixSpec | server.js:114-132 | the map over the first `n` records succeeds exactly when each record's repair does, giving record `i`'s repair at position `i`; otherwise it gives the fault of the first record that throws |
| Server.ProcessRecipes | server.js:114-132 | the loop over the parsed array returns `RepairAll` of it |
| Server.Respond | server.js:32-140 | the model is called exactly when validation passes and the prompt can be built, with that prompt; when validation passes but the prompt throws, no reply is sent; a model error gives 500 "Failed to generate recipes. Server error: " and its message; `totalGenerated` is the number of results |
| Server.Answer | server.js:81-140 | everything inside the `try` ends in a reply: a model error gives 500 with its message, every failure is a 500, and `totalGenerated` is the number of results |
| Server.AnswerFailureText | server.js:81-140 | every failure sent from inside the `try` carries a non-empty message |
| Server.UnansweredRequest | server.js:39-49 | a body whose `cuisine` is an object with its own `toString` is left unanswered by the handler as written, and gets 500 with the fault's message from the corrected handler |
| Server.RespondInTry | server.js:32-140 | the handler with the prompt built inside the `try` answers every request |
| Server.RespondInTryAnswers | server.js:32-140 | the corrected handler fails only with 400 or 500 and a non-empty message; it does what the written handler does wherever that one answers, and answers 500 with the fault's message where it does not |
| Server.GeneratedFromParsedArray | server.js:114-139 | a 200 reply from inside the `try` carries one repaired record per element of the parsed array, in order |
| Server.SuccessMatchesParsedArray | server.js:114-139 | a 200 reply carries one repaired record per element of the parsed array, in order, and `totalGenerated` is their number; every failure has status 400 or 500 and a non-empty message |
| Server.RepairOutcome | server.js:114-139 | after a successful parse the reply is 200 exactly when the parsed value is an array of repairable records; a parsed `null` gives 500 with the message for reading `map` on null, any other non-array 500 with the "not a function" message, and a record that throws 500 with its fault, each after "Failed to generate recipes. Server error: " |
| Text.Trim | public/script.js:56 | the trimmed text has no white space at either end and is no longer than the input |
| Text.TrimShape | public/script.js:56 | the trimmed text is one contiguous piece of the input, and everything before it and after it is white space |
| Text.TrimFixed | public/script.js:56 | a text is its own trim exactly when it has no white space at either end |
| Text.TrimEmpty | public/script.js:56-57 | the trim is empty exactly when the text is all white space |
| Text.TrimPadded | server.js:105 | trimming white-space padding off a trimmed text gives that text back |
| Text.NatTextRoundTrip | public/script.js:231 | the decimal text of a status reads back as that status |
| Flow.SentRequestPrompt | public/script.js:188-226 | every request the page sends passes validation with the pantry as its ingredients, and its prompt is always built; the prompt lists the pantry, carries a cuisine or meal type line exactly when the trimmed selection is non-empty, and a difficulty line exactly when the untrimmed selection is non-empty |
| Flow.PageRequestsAnswered | public/script.js:209-226 | a request the page sends is always answered: the written and the corrected handler behave alike on it, and the model is called with its prompt |
| Flow.CourseIgnored | public/script.js:191 | the course the page sends never changes the prompt |
| Flow.FailureReachesPage | public/script.js:229-248 | every error reply of the handler is shown on the page as "Failed to generate recipe: <its error>. Please try again." |
| Flow.GeneratedReachesPage | public/script.js:109-120 | through `displayRecipes(data.results)`, a 200 reply without results shows the "no recipes" message; when no showable result throws while rendered, the page shows the showable results in reply order; otherwise it shows the error text of the first showable result that throws |
| Flow.GeneratedBodyShown | public/script.js:106-147 | the same three outcomes for any 200 body the handler builds |
| Flow.RepairedRecordOnPage | server.js:114-132 | a repaired record gets a card exactly when its `name` is truthy and its `instructions` text is non-empty; its card never throws on its ingredients; it throws on an `id` that does not convert, else on a difficulty that is truthy but not a string, else on a card field that does not convert, and otherwise renders |
| Flow.RepairedCardFields | server.js:114-132 | the repair keeps every field a card shows apart from `id`, and the repaired `id` converts to text exactly when the record's own does |
| Flow.StringListRenders | public/script.js:141 | an ingredient list of strings never makes a card throw |

## Left out

- Rendering apart from the card's faults and the pantry entry's markup: the layout of the card template, the instructions modal, the loading screen, scrolling and event wiring. These only lay out text. The card template inserts the recipe's fields as markup without escaping, like the pantry entry in "## Findings"; that is not modelled for the card. The instructions modal can throw on the same kinds of value as the card, and its faults are not modelled either.
- `fetch`, HTTP transport, Express, CORS, static files, `dotenv`, the exit on a missing API key and `app.listen`: the page's side is modelled from the response status and parsed body on, the server's from the parsed request body on.
- The language model call: it is the parameter `generate`, so any response text is possible.
- `JSON.parse`: it is the parameter `parse`; the parser itself is not modelled, and `JSON.stringify` of the request body is taken to be undone exactly by the server's body parser.
- `Date.now()` and `Math.random().toString(36)`: a fresh id is built from an `IdSeed` given per record; only its `recipe_` prefix is stated.
- The fixed text of the prompt and all console logging: only the lines that depend on the request are modelled.
- JavaScript numbers are modelled as integers. Only integers below 2^53 behave as modelled. A fractional number such as 2.5, an exponent form such as 1e21 (whose text is "1e+21"), and larger integers, which JavaScript rounds, are not modelled.
- Text lengths count characters rather than UTF-16 code units, and case mapping is ASCII; the units and the badge only meet ASCII in practice.
- The messages of TypeErrors and SyntaxErrors come from the runtime, so they are parameters (`describe`, `runtimeError`).
- Property order in objects is not modelled (records are maps), so neither is the order of keys in the reply.
- Client.IngredientsThrow: an object's `length` that is a string, or an array that converts to text, is compared with 0 after JavaScript's conversion to a number. That conversion is not modelled, and such a `length` is taken not to make the card throw. A `length` that does not convert at all is modelled (`Client.LengthThrows`).
- Client.AfterResponse: the "Generating…" loading message shown before the empty-pantry check is not modelled, because the check replaces it at once.
- Pantry.PantryList.Remove: `data-index` is a string that `splice` converts to an integer. The model takes the converted start. A missing or non-numeric `data-index` converts to 0, and that conversion is not modelled.
- Pantry.RemoveButtons: lists only the buttons the template writes. An entry is inserted as markup, so an entry holding markup adds remove buttons of its own or hides the entry's button, and these are not listed (see "## Findings").
- Pantry.ButtonRemovesOne: is about the buttons the template writes. A button injected by an entry can carry any `data-index`, and what it removes is then given by `Spliced` with that start.
- Server.Respond: an unanswered request is `Unanswered`. Whether the process then exits or Express sends an error page depends on versions that are not part of the model.

## Findings

| source | as written | input that shows it | evidently intended | confidence | as-written member | corrected member |
|---|---|---|---|---|---|---|
| server.js:39-49 | the prompt is built before the `try` at server.js:81, so converting a value with its own `toString` to text rejects the handler's promise and no reply is sent | a body `{"ingredients": ["egg"], "cuisine": {"toString": 1}}` | every fault is answered with 500 "Failed to generate recipes. Server error: ..." | not executed | Server.UnansweredRequest | Server.RespondInTryAnswers |
| public/script.js:44-48 | each entry is inserted into `innerHTML` as markup, so an entry can add tags to the pantry list, such as its own remove button | the entry `<button class="remove-ingredient" data-index="-1">x</button>`: clicking it removes the last entry | each entry shows as text, and its only button is the one the template writes | not executed | Pantry.InjectedButton | Pantry.SafeEntryText |
