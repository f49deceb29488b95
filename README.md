# Offline activity assistant: query routing, fallbacks and caches in Dafny

This project models the decision logic of an outdoor-activity assistant. The assistant is a React Native app with a small Flask backend. When the language model cannot be reached it answers from keyword rules or caches. The model covers the following parts.

- **`LlamaService`** (module `QueryService`). `ask`, `chat` and `emergency` never fail: a transport failure becomes the keyword-matched offline text. `isBackendAvailable` keeps its verdict for 30 seconds.
- **`OllamaService`** (module `OllamaChat`). A singleton that checks availability, then calls the chat endpoint. It keeps every answer in a map keyed by the lower-cased, trimmed last user message, saves that map to storage best-effort, and answers from it when the endpoint is down or the call fails.
- **The two `askOllama` clients** (modules `OllamaApi` and `OllamaAppApi`). They differ in how they map errors and extract the answer.
- **The Flask handlers `/ask`, `/chat` and `/emergency`** (module `FlaskBackend`). Each one validates the request, optionally calls Groq, and falls back to a six-way keyword table.
- **Three helpers inside screens**:
  - the numbered-list trail parser and the built-in trail list it falls back to (module `TrailList`);
  - the injury prompt builder (module `InjuryScan`);
  - the trip form's validator and its append-to-storage step (module `NewTrips`).

Things outside the program are inputs to the model:
- the network: `Transport.HttpOutcome` is either no response, or a response with its status, its body text and the body decoded as JSON;
- storage: plain objects holding one item;
- the Groq client: an oracle function from request to outcome;
- the clock: a `now` parameter;
- the device date: a string parameter.

JSON values are one datatype (`JsonValues.Json`). It has separate JavaScript and Python truthiness, and a JavaScript property read that fails on `null`.

Pure code is written as functions. Where the source updates fields or locals step by step, the model is a class or a method with a loop, proved against a specification function. The classes are `LlamaService`, `OllamaService`, `Registry`, `TrailsScreen`, `InjuryScanScreen` and `NewTripScreen`; the loops are the trail parser's `forEach` and `map`.

Where the code and its description differ, the model follows the code:
- `LlamaService.chat` sends the *first* user message, not the last.
- `ask` keeps no response cache.
- `isBackendAvailable` probes through the total `ask`, so its verdict is always `true` (`QueryService.VerdictAlwaysTrue`).
- `OllamaService.isAvailable` also requires a body that decodes to a non-`null` value, because `data.models` is read from it.
- The apologies in `ask`, `chat`, `emergency` and the injury screen's `catch` can never be produced.
- `/chat` takes `len` of `messages` in a log line before validating it. So `null`, a number or a boolean there gives a server error (500), not a bad request (400).
- An injury of the general type or a burn whose analysis falls back offline gets the *plant* text, because the sentences of both types contain "Identify" (`InjuryScan.GeneralPromptOfflineIsPlantText`, `InjuryScan.BurnPromptOfflineIsPlantText`).
- With the network down, the trails screen does not show `OFFLINE_TRAILS`: the availability verdict is still `true`, and the screen shows the offline notice of `ask` parsed as trails (`TrailList.OfflineScreenParsesNotice`).

## Model

| member | source | states |
|---|---|---|
| QueryService.LlamaService.GetOfflineResponse | offline-activity-assistant/services/llamaService.ts:91-107 | the reply is one of the four offline texts and never empty |
| QueryService.OfflineResponseIsRuleTable | offline-activity-assistant/services/llamaService.ts:91-107 | the if-chain equals the first matching rule of the ordered table (plant/identify, emergency/help/urgent, hike/trail) over the lower-cased prompt, with the generic text as default |
| KeywordRules.FirstMatchChoice | offline-activity-assistant/services/llamaService.ts:94-106 | a rule table answers with rule i exactly when rule i matches and no earlier one does, and with the default exactly when none matches |
| KeywordRules.FirstMatch | offline-activity-assistant/llama-backend/app.py:60-71 | the answer is the default or the reply of some rule |
| KeywordRules.FirstMatchIndex | offline-activity-assistant/llama-backend/app.py:60-71 | the index found lies within the table; no earlier rule matches; the rule at that index matches |
| QueryService.PlantBeatsHelp | offline-activity-assistant/services/llamaService.ts:94-100 | "help identify plant" gets the plant text, because plant keywords are tried before help |
| QueryService.OfflineIdentify | offline-activity-assistant/services/llamaService.ts:94-95 | offline, any prompt whose lower-cased text contains "identify" gets the plant text |
| QueryService.AskFallsBack | offline-activity-assistant/services/llamaService.ts:16-27 | on success `ask` returns exactly the transport's answer; on failure it returns the offline text for the prompt and never the apology |
| QueryService.OfflinePlantQuestion | offline-activity-assistant/services/llamaService.ts:22-25 | offline, "Can you identify this plant?" gets the plant text |
| QueryService.ChatSendsFirstUser | offline-activity-assistant/services/llamaService.ts:32-39 | `chat` is `ask` of the content of the first user message, or of "" when there is none |
| QueryService.FirstUserContentIs | offline-activity-assistant/services/llamaService.ts:35 | the text `chat` sends is the first user message's content, or "" when there is none |
| QueryService.ChatIgnoresLaterMessages | offline-activity-assistant/services/llamaService.ts:35 | messages after the first user message do not change the answer |
| QueryService.FirstUserIndexAppend | offline-activity-assistant/services/llamaService.ts:35 | appending messages does not move the first user message once there is one |
| Conversation.FirstUserIndex | offline-activity-assistant/services/llamaService.ts:35 | the index is that of a user message with no user message before it, or the length when there is none |
| Conversation.FirstUser | offline-activity-assistant/services/llamaService.ts:35 | `find`: none exactly when no message is from the user; otherwise a user message with no user message before it |
| Conversation.LastUser | offline-activity-assistant/services/ollamaService.ts:128 | reverse-then-find: none exactly when no message is from the user; otherwise a user message with no user message after it |
| Conversation.LastUserIndex | offline-activity-assistant/services/ollamaService.ts:128 | the index found holds a user message and no later message is from the user; -1 exactly when there is no user message |
| Conversation.LastUserAt | offline-activity-assistant/services/ollamaService.ts:128 | the last user message found is the one at the last index holding a user message |
| QueryService.EmergencyPromptSaysEmergency | offline-activity-assistant/services/llamaService.ts:51 | the lower-cased emergency prompt always contains "emergency" |
| QueryService.EmergencyOfflineText | offline-activity-assistant/services/llamaService.ts:49-59 | offline, an emergency request gets the emergency offline text unless its prompt mentions plants |
| QueryService.EmergencyApologyUnreachable | offline-activity-assistant/services/llamaService.ts:53-58 | when the request fails, `emergency` does not return its own apology |
| QueryService.LlamaService.IsBackendAvailable | offline-activity-assistant/services/llamaService.ts:64-86 | the verdict and the new fields are those of the one-call specification; the probe count rises by one exactly when a probe is sent |
| QueryService.FreshVerdictReused | offline-activity-assistant/services/llamaService.ts:67-70 | a stored verdict less than 30000 ms old is returned with no probe and no change of state |
| QueryService.StaleVerdictProbed | offline-activity-assistant/services/llamaService.ts:72-79 | otherwise one probe is sent, the time taken before it is recorded, and the verdict is stored |
| QueryService.FirstCallProbes | offline-activity-assistant/services/llamaService.ts:64-79 | the first call always probes, because no verdict is stored yet |
| QueryService.Run | offline-activity-assistant/services/llamaService.ts:64-86 | a series of calls gives one verdict per call and at most one probe per call |
| QueryService.VerdictAlwaysTrue | offline-activity-assistant/services/llamaService.ts:75-79 | from a state without a stored `false`, every call reports `true` and no `false` is ever stored |
| QueryService.WindowedProbing | offline-activity-assistant/services/llamaService.ts:64-79 | two calls less than 30 s apart probe once; a third call 30 s or more after the first probes again |
| QueryService.LlamaService.constructor | offline-activity-assistant/services/llamaService.ts:9-11 | a new service has no stored verdict and check time 0 |
| OllamaApi.StatusErrorNamesStatus | offline-activity-assistant/api/ollama.ts:18-22 | a status outside 200-299 raises an HTTP error whose message contains the status |
| OllamaApi.FailuresPropagate | offline-activity-assistant/api/ollama.ts:28-31 | a network failure is raised unchanged; an undecodable or `null` body also raises |
| OllamaApi.AnswerFieldFirst | offline-activity-assistant/api/ollama.ts:27 | a present non-null `answer` is returned, even the empty string |
| OllamaApi.ResponseFieldSecond | offline-activity-assistant/api/ollama.ts:27 | with `answer` nullish, a present non-null `response` is returned |
| OllamaApi.RawBodyLast | offline-activity-assistant/api/ollama.ts:27 | with both nullish, the decoded body itself is returned |
| OllamaApi.SuccessIff | offline-activity-assistant/api/ollama.ts:18-27 | the call succeeds exactly when a 2xx response arrives whose body decodes to a non-null value |
| OllamaAppApi.ErrorsBecomeApology | ollama-app/api/ollama.ts:15-22 | a network failure, any status other than 200 and a `null` body all give the fixed error text |
| OllamaAppApi.AnswerCases | ollama-app/api/ollama.ts:8-23 | a status-200 reply whose `data` has a non-null `response` gives it; one without gives "No response received."; any other outcome gives the error text |
| OllamaChat.IsAvailableIff | offline-activity-assistant/services/ollamaService.ts:97-119 | available exactly when a 2xx response arrives whose body decodes to a non-null value; every failure is false |
| OllamaChat.ChatAnswerTruthy | offline-activity-assistant/services/ollamaService.ts:160 | every answer a successful call produces is truthy, so the cache lookup finds it again |
| OllamaChat.MissingContentGivesPlaceholder | offline-activity-assistant/services/ollamaService.ts:157-160 | a 2xx body without `message` counts as a success with the placeholder as answer |
| OllamaChat.NoUserMessage | offline-activity-assistant/services/ollamaService.ts:128-131 | without a user message the fixed request for a question comes back and the cache is unchanged |
| OllamaChat.KeyFromLastUserMessage | offline-activity-assistant/services/ollamaService.ts:128-163 | the answer of a successful call is stored under the last user message's content, lower-cased then trimmed |
| OllamaChat.SuccessStores | offline-activity-assistant/services/ollamaService.ts:157-166 | on success the answer is returned and stored under the key, replacing an earlier value; the other entries are unchanged and a save starts |
| OllamaChat.FallbackToCache | offline-activity-assistant/services/ollamaService.ts:133-175 | when unavailable or failing, a truthy cached answer for the key is returned, otherwise the fixed notice for that case; nothing is stored |
| OllamaChat.OfflineReplay | offline-activity-assistant/services/ollamaService.ts:133-175 | an answer stored by one call is what a later call with the same normalised question gets while the endpoint is down or failing |
| OllamaChat.ExampleKey | offline-activity-assistant/services/ollamaService.ts:135 | "Best Trail Near Lake " keys as "best trail near lake" |
| OllamaChat.ExampleLower | offline-activity-assistant/services/ollamaService.ts:135 | the lower-casing step of that key |
| OllamaChat.TrimEndOneSpace | offline-activity-assistant/services/ollamaService.ts:135 | the trimming step of that key |
| OllamaChat.NormalisedLookup | offline-activity-assistant/services/ollamaService.ts:133-138 | offline, "Best Trail Near Lake " finds the entry stored under "best trail near lake" |
| OllamaChat.LoadRestoresSaved | offline-activity-assistant/services/ollamaService.ts:71-92 | loading what was saved gives back exactly the saved map |
| OllamaChat.OllamaService.LoadCache | offline-activity-assistant/services/ollamaService.ts:71-81 | a decoded stored map replaces the cache; a failed read, a missing item or an undecodable item leave it unchanged |
| OllamaChat.OllamaService.SaveCache | offline-activity-assistant/services/ollamaService.ts:86-92 | a successful write stores the current map; a failed one changes nothing |
| OllamaChat.OllamaService.Chat | offline-activity-assistant/services/ollamaService.ts:124-177 | the answer and the new cache are those of the chat specification; storage is written exactly when that specification starts a save and the write succeeds |
| OllamaChat.OllamaService.constructor | offline-activity-assistant/services/ollamaService.ts:55-59 | a new service starts from the empty map and then loads the stored one |
| OllamaChat.Storage.constructor | offline-activity-assistant/services/ollamaService.ts:71-92 | storage holds the item it is given |
| OllamaChat.Registry.constructor | offline-activity-assistant/services/ollamaService.ts:54 | no instance exists at first |
| OllamaChat.Registry.GetInstance | offline-activity-assistant/services/ollamaService.ts:61-66 | the first call creates and loads the service; every later call returns that same object |
| OllamaChat.SameInstance | offline-activity-assistant/services/ollamaService.ts:61-66 | two calls return the same object |
| OllamaChat.SaveThenReload | offline-activity-assistant/services/ollamaService.ts:71-92 | a service built on storage that was just saved holds the same map |
| FlaskBackend.GetFallbackResponse | offline-activity-assistant/llama-backend/app.py:47-71 | the reply is always one of the six `FALLBACK_RESPONSES` values |
| FlaskBackend.FallbackIsRuleTable | offline-activity-assistant/llama-backend/app.py:56-71 | the chain equals the first match of the ordered table (plant/identify, emergency/"first aid", "hik"/trail, weather, safety) over the lower-cased question, with the default reply otherwise |
| FlaskBackend.RuleTableChain | offline-activity-assistant/llama-backend/app.py:60-71 | the rule table unrolled into the same chain |
| FlaskBackend.FallbackCaseInsensitive | offline-activity-assistant/llama-backend/app.py:58 | a question and its lower-cased form get the same reply |
| FlaskBackend.AskQuestionOrPrompt | offline-activity-assistant/llama-backend/app.py:80-114 | a 400 comes back exactly when both `question` and `prompt` are falsy; otherwise `question`, or `prompt` when `question` is falsy, goes to the fallback when Groq is off |
| FlaskBackend.AskString | offline-activity-assistant/llama-backend/app.py:87-114 | with Groq on, a string question gets Groq's text; a Groq failure or a completion without content gives the keyword fallback |
| FlaskBackend.AskStringNeverFails | offline-activity-assistant/llama-backend/app.py:75-114 | a dict body whose chosen question is a string never gives 500 |
| FlaskBackend.UserItems | offline-activity-assistant/llama-backend/app.py:128 | the filtered list holds only user dicts, and is empty exactly when no item is one |
| FlaskBackend.UserItemsLast | offline-activity-assistant/llama-backend/app.py:128-132 | the last element of the filtered list is the last user item |
| FlaskBackend.ChatValidation | offline-activity-assistant/llama-backend/app.py:120-125 | a missing, empty or non-list `messages` gives 400, except that values without `len` give 500 |
| FlaskBackend.ChatNoUserMessage | offline-activity-assistant/llama-backend/app.py:128-130 | a list of dicts none of which is from the user gets "Please provide a question." with 200 |
| FlaskBackend.ChatLastUserQuestion | offline-activity-assistant/llama-backend/app.py:132-157 | Groq gets the full list; without Groq or on failure, the reply is the fallback for the last user message's content, "" when it has none |
| FlaskBackend.EmergencyContract | offline-activity-assistant/llama-backend/app.py:165-198 | 400 exactly when `question` is falsy, an absent key included; otherwise the prompt is "This is a {type} emergency. {question}" with type "general" by default; without Groq or on failure the reply is the fixed emergency text, whatever the question says |
| TrailList.MarkerEndIsMarker | offline-activity-assistant/app/trails.tsx:66 | a match of `\d+\.\s` is digits, a dot and one whitespace character |
| TrailList.DigitRunEnd | offline-activity-assistant/app/trails.tsx:66 | the greedy `\d+` ends at the first non-digit |
| TrailList.FindMarker | offline-activity-assistant/app/trails.tsx:66 | the marker found is the leftmost one; none is found exactly when there is none |
| TrailList.MarkersOf | offline-activity-assistant/app/trails.tsx:66 | the text removed by the split is a list of markers, one fewer than the parts |
| TrailList.SplitMarkersRejoin | offline-activity-assistant/app/trails.tsx:66 | putting the removed markers back between the parts gives the text again |
| TrailList.NoMarkerNoSplit | offline-activity-assistant/app/trails.tsx:66 | a text without a marker is one part |
| TrailList.NonEmpty | offline-activity-assistant/app/trails.tsx:66-70 | `filter(Boolean)` keeps only non-empty parts, and is empty exactly when all parts are; a single part is kept exactly when it is non-empty |
| TrailList.NonEmptyAppend | offline-activity-assistant/app/trails.tsx:66 | filtering a concatenation filters each side, so every non-empty part is kept, in order |
| TrailList.StripLabelKeeps | offline-activity-assistant/app/trails.tsx:71 | a line without a colon, or starting with one, keeps its text |
| TrailList.StripLabelRemoves | offline-activity-assistant/app/trails.tsx:71 | otherwise the result is the text after the first colon with exactly the whitespace right after the colon removed |
| TrailList.TrailName | offline-activity-assistant/app/trails.tsx:71 | the name is the first line with its label stripped, or "Trail n" when there is no line or the stripped line is empty; hence never empty |
| TrailList.ColonFieldBetweenColons | offline-activity-assistant/app/trails.tsx:79-81 | the field exists exactly when the line has a colon, and is the trimmed text between the first colon and the next one |
| TrailList.ClassifyOrder | offline-activity-assistant/app/trails.tsx:78-84 | "difficulty" is checked before "length"/"distance", and both before the colon test; only colon-free lines without those words are description |
| TrailList.DifficultyFromLastLine | offline-activity-assistant/app/trails.tsx:73-79 | the difficulty is that of the last line that sets one, "Unknown" when none does |
| TrailList.LengthFromLastLine | offline-activity-assistant/app/trails.tsx:74-81 | the length is that of the last line that sets one, "Unknown" when none does |
| TrailList.DescriptionOfPlainLines | offline-activity-assistant/app/trails.tsx:75-84 | the description gathers exactly the description lines, in order, each followed by a space |
| TrailList.ScanLine | offline-activity-assistant/app/trails.tsx:77-85 | one callback step updates the three locals as the line's kind says |
| TrailList.ScanLines | offline-activity-assistant/app/trails.tsx:73-85 | the loop computes the fold of the line kinds from the defaults |
| TrailList.ParseEntry | offline-activity-assistant/app/trails.tsx:68-93 | one entry gives the trail of the entry specification |
| TrailList.MapEntries | offline-activity-assistant/app/trails.tsx:68-94 | the loop gives one trail per entry, in order |
| TrailList.ParseTrails | offline-activity-assistant/app/trails.tsx:65-94 | the method equals the split, filter and map specification |
| TrailList.ParsedIdsAndNames | offline-activity-assistant/app/trails.tsx:71-88 | ids are "1".."n" by position and hence distinct; trail k is named by the label-stripped first non-empty line of entry k, or "Trail k+1" |
| TrailList.LoadedTrails | offline-activity-assistant/app/trails.tsx:96-103 | the list is never empty; with a `false` verdict or a non-text answer it is the built-in list; otherwise the parse, or the built-in list when nothing parses |
| TrailList.OfflineScreenParsesNotice | offline-activity-assistant/app/trails.tsx:53-96 | with the network down the verdict is still `true`, and the list shown is the offline notice parsed as trails, or the built-in list only when the notice splits into no entry |
| TrailList.EmptyAnswerShowsOfflineTrails | offline-activity-assistant/app/trails.tsx:96 | an empty answer shows the built-in trails |
| TrailList.TrailsScreen.LoadTrails | offline-activity-assistant/app/trails.tsx:50-107 | the screen records the availability verdict and the list of the load specification, and loading ends; the service state is that of its availability check, and the probe count rises by one exactly when a probe is sent |
| TrailList.TrailsScreen.constructor | offline-activity-assistant/app/trails.tsx:43-47 | a new screen is loading, with no trails and no verdict |
| InjuryScan.TypeSentence | offline-activity-assistant/app/injury-scan.tsx:44-59 | exactly one of the five sentences is chosen; the general sentence is chosen exactly when the type is not cut, burn, rash or swelling |
| InjuryScan.PromptShape | offline-activity-assistant/app/injury-scan.tsx:42-62 | the prompt starts with the dated opening and ends with the disclaimer, with exactly the type sentence between them |
| InjuryScan.PromptIdentifiesSentence | offline-activity-assistant/app/injury-scan.tsx:42-62 | for one date, two prompts are equal exactly when their types get the same sentence |
| InjuryScan.BuildPrompt | offline-activity-assistant/app/injury-scan.tsx:42-62 | the `+=` steps build the specified prompt |
| InjuryScan.IdentifySentenceOfflineIsPlantText | offline-activity-assistant/app/injury-scan.tsx:44-65 | offline, a prompt whose type sentence contains "Identify" gets the plant text |
| InjuryScan.GeneralPromptOfflineIsPlantText | offline-activity-assistant/app/injury-scan.tsx:57-65 | offline, a prompt of the general type gets the plant text |
| InjuryScan.BurnPromptOfflineIsPlantText | offline-activity-assistant/app/injury-scan.tsx:48-49 | offline, a burn prompt gets the plant text too |
| InjuryScan.LowerContainsIdentify | offline-activity-assistant/app/injury-scan.tsx:58-65 | a prompt holding "Identify" contains "identify" once lower-cased |
| InjuryScan.InjuryScanScreen.AnalyzeInjury | offline-activity-assistant/app/injury-scan.tsx:33-74 | with no photo nothing changes; otherwise the result is `ask`'s answer for the prompt and analysis ends |
| InjuryScan.InjuryScanScreen.constructor | offline-activity-assistant/app/injury-scan.tsx:12-15 | a new screen has no photo or result and the general type |
| NewTrips.ValidateFormIff | offline-activity-assistant/app/new-trips.tsx:28-45 | the form is valid exactly when name, destination and start date are not all whitespace; a failure reports the first blank field in that order |
| NewTrips.OptionalFieldsIgnored | offline-activity-assistant/app/new-trips.tsx:28-45 | end date, activities and notes never affect validation |
| NewTrips.InvalidFormWritesNothing | offline-activity-assistant/app/new-trips.tsx:47-48 | an invalid form shows its alert and leaves storage unchanged |
| NewTrips.SaveAppendsOne | offline-activity-assistant/app/new-trips.tsx:56-80 | a save keeps the stored trips in place and order and adds exactly one at the end, holding the form values untrimmed |
| NewTrips.FirstSave | offline-activity-assistant/app/new-trips.tsx:67-74 | with no item or the empty text stored, the list written holds only the new trip |
| NewTrips.FailedSaveKeepsStore | offline-activity-assistant/app/new-trips.tsx:81-83 | a read, decode or write failure shows the failure alert and leaves storage unchanged |
| NewTrips.NewTripScreen.SaveTrip | offline-activity-assistant/app/new-trips.tsx:47-87 | the alert shown and the stored item are those of the save specification, and submitting ends after a valid form |
| NewTrips.NewTripScreen.constructor | offline-activity-assistant/app/new-trips.tsx:20-26 | a new form is blank and not submitting |
| NewTrips.TripStore.constructor | offline-activity-assistant/app/new-trips.tsx:67-74 | storage holds the item it is given |
| JsonValues.GetProp | offline-activity-assistant/api/ollama.ts:27 | a property read fails exactly on `null`, and finds exactly the members an object has |
| Text.ToLower | offline-activity-assistant/services/llamaService.ts:92 | lower-casing maps each character and keeps the length |
| Text.LowerKeepsOccurrence | offline-activity-assistant/services/llamaService.ts:92 | lower-casing keeps every occurrence of a word with no upper-case letters in place |
| Text.Trim | offline-activity-assistant/services/ollamaService.ts:135 | the result is no longer than the input and has no whitespace at either end |
| Text.TrimSlice | offline-activity-assistant/app/new-trips.tsx:29 | the trimmed string is the slice of the input that starts after its leading whitespace; everything cut on either side is whitespace |
| Text.TrimEmptyIff | offline-activity-assistant/app/new-trips.tsx:29 | a string trims to empty exactly when it is all whitespace |
| Text.SplitOnJoin | offline-activity-assistant/app/trails.tsx:70 | joining the parts of a split with the separator gives back the string |
| Text.NatToStringInjective | offline-activity-assistant/app/trails.tsx:88 | different numbers render to different decimal strings |
| Text.NatToStringValue | offline-activity-assistant/app/new-trips.tsx:54 | the decimal rendering reads back as the number |

## Left out

- Network, storage, timers, the Groq client and logging are inputs or absent. A request is one `HttpOutcome`, a storage item is an object field, and `Date.now()` and `toLocaleDateString()` are parameters.
- `JSON.parse` and `JSON.stringify` are abstracted. A stored item is either a decoded value or "undecodable", and a response carries its decoded body as an option.
- Floating-point JSON numbers are not modelled; numbers are integers.
- Case mapping covers ASCII letters only, and strings are sequences of code points rather than UTF-16 units.
- Python's `str()` of a list or dict, used when `/emergency` formats its prompt, is a parameter of the model.
- The cache is a `map`. Keys such as `constructor` or `__proto__`, which plain JavaScript objects treat specially, are not modelled.
- `OllamaChat.OllamaService.Chat`: answers are any JSON value, not only strings; the caller in the source stores whatever the server sends.
- `OllamaChat.OllamaService.constructor`: the unawaited `loadCache` race is not modelled; the load finishes before the first `chat`.
- A stored cache that decodes to a non-object replaces the cache in the source; the model treats every non-map item as undecodable and keeps the current map.
- `NewTrips.NewTripScreen.SaveTrip`: a stored list whose elements are not trips is not distinguished from a list of trips. The navigation behind the success alert's button is not modelled.
- `InjuryScan.InjuryScanScreen.AnalyzeInjury`: the failure text of the `catch` is never produced, because `ask` cannot fail.
- Flask's own handling of a body that is not JSON is left out; handlers receive the decoded body.
- The `/health` and `/` routes, `fetchTrailDetails`, the `identifyPlant` object of the Ollama service, screen rendering, navigation and styling are left out as display-only or outside the modelled core.
