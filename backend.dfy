/** The Flask backend (offline-activity-assistant/llama-backend/app.py):
    the `/ask`, `/chat` and `/emergency` handlers as functions of the
    decoded request body, the `USE_GROQ` switch and the Groq client, with
    the six-way keyword fallback used when Groq is off or fails. */
module FlaskBackend {
  import opened Wrappers
  import opened Text
  import opened JsonValues
  import opened KeywordRules

  const DefaultReply := "I'm a simple AI assistant. How can I help you today?"
  const PlantReply := "This appears to be a common plant. Without more details, I can't identify it specifically. Always be cautious with unknown plants and don't consume them."
  const EmergencyReply := "For any medical emergency, please call emergency services immediately (911 in the US). Do not rely on AI for urgent medical assistance."
  const HikingReply := "When hiking, always bring water, tell someone your plans, check weather conditions, and be prepared for emergencies."
  const WeatherReply := "It's important to check weather forecasts before outdoor activities. Use reliable weather services and be prepared for changing conditions."
  const SafetyReply := "Outdoor safety is crucial. Always be prepared with proper gear, water, food, navigation tools, and emergency supplies."

  /** `FALLBACK_RESPONSES`. */
  const FallbackResponses: map<string, string> := map[
    "default" := DefaultReply,
    "plant" := PlantReply,
    "emergency" := EmergencyReply,
    "hiking" := HikingReply,
    "weather" := WeatherReply,
    "safety" := SafetyReply
  ]

  /** The order and keywords of `get_fallback_response` as a rule table. */
  const FallbackRules := [
    Rule(["plant", "identify"], PlantReply),
    Rule(["emergency", "first aid"], EmergencyReply),
    Rule(["hik", "trail"], HikingReply),
    Rule(["weather"], WeatherReply),
    Rule(["safety"], SafetyReply)
  ]

  const AskSystemPrompt := "You are a helpful assistant knowledgeable about outdoor safety, medical advice, and nature."
  const EmergencySystemPrompt := "You are a calm, accurate, first-responder assistant giving step-by-step advice in emergency situations. Keep answers actionable and concise."
  const MaxTokens := 1024

  const MissingQuestion := "Missing question or prompt"
  const InvalidMessages := "Invalid or missing messages array"
  const MissingEmergency := "Missing emergency question"
  const NoUserQuestion := "Please provide a question."

  /** `get_fallback_response`: the first keyword group found in the
      lower-cased question picks the reply. */
  function GetFallbackResponse(question: string): (r: string)
    ensures r in FallbackResponses.Values
  {
    var q := ToLower(question);
    assert FallbackResponses["default"] == DefaultReply;
    if Contains(q, "plant") || Contains(q, "identify") then FallbackResponses["plant"]
    else if Contains(q, "emergency") || Contains(q, "first aid") then FallbackResponses["emergency"]
    else if Contains(q, "hik") || Contains(q, "trail") then FallbackResponses["hiking"]
    else if Contains(q, "weather") then FallbackResponses["weather"]
    else if Contains(q, "safety") then FallbackResponses["safety"]
    else FallbackResponses["default"]
  }

  /** The if/elif chain is the first match of the rule table over the
      lower-cased question, with the default reply when no rule matches. */
  lemma FallbackIsRuleTable(question: string)
    ensures GetFallbackResponse(question) == FirstMatch(FallbackRules, ToLower(question), DefaultReply)
  {
    var q := ToLower(question);
    FallbackChain(question);
    RuleTableChain(q);
  }

  /** `get_fallback_response` with the table's entries looked up. */
  lemma FallbackChain(question: string)
    ensures var q := ToLower(question);
      GetFallbackResponse(question) ==
        if Contains(q, "plant") || Contains(q, "identify") then PlantReply
        else if Contains(q, "emergency") || Contains(q, "first aid") then EmergencyReply
        else if Contains(q, "hik") || Contains(q, "trail") then HikingReply
        else if Contains(q, "weather") then WeatherReply
        else if Contains(q, "safety") then SafetyReply
        else DefaultReply
  {
    assert FallbackResponses["plant"] == PlantReply;
    assert FallbackResponses["emergency"] == EmergencyReply;
    assert FallbackResponses["hiking"] == HikingReply;
    assert FallbackResponses["weather"] == WeatherReply;
    assert FallbackResponses["safety"] == SafetyReply;
    assert FallbackResponses["default"] == DefaultReply;
  }

  /** The rule table unrolled into its if-chain. */
  lemma RuleTableChain(q: string)
    ensures FirstMatch(FallbackRules, q, DefaultReply) ==
        if Contains(q, "plant") || Contains(q, "identify") then PlantReply
        else if Contains(q, "emergency") || Contains(q, "first aid") then EmergencyReply
        else if Contains(q, "hik") || Contains(q, "trail") then HikingReply
        else if Contains(q, "weather") then WeatherReply
        else if Contains(q, "safety") then SafetyReply
        else DefaultReply
  {
    var r0, r1, r2, r3, r4 := FallbackRules[0], FallbackRules[1], FallbackRules[2], FallbackRules[3], FallbackRules[4];
    MatchesTwo(r0, q);
    MatchesTwo(r1, q);
    MatchesTwo(r2, q);
    MatchesOne(r3, q);
    MatchesOne(r4, q);
    assert FallbackRules == [r0] + ([r1] + ([r2] + ([r3] + ([r4] + []))));
    FirstMatchCons(r0, [r1] + ([r2] + ([r3] + ([r4] + []))), q, DefaultReply);
    FirstMatchCons(r1, [r2] + ([r3] + ([r4] + [])), q, DefaultReply);
    FirstMatchCons(r2, [r3] + ([r4] + []), q, DefaultReply);
    FirstMatchCons(r3, [r4] + [], q, DefaultReply);
    FirstMatchCons(r4, [], q, DefaultReply);
  }

  /** The fallback ignores letter case. */
  lemma FallbackCaseInsensitive(question: string)
    ensures GetFallbackResponse(ToLower(question)) == GetFallbackResponse(question)
  {
    ToLowerIdempotent(question);
  }

  /** A message the handlers send to Groq: a dict with `role` and `content`. */
  function ChatMessage(role: string, content: Json): Json
  {
    JObj(map["role" := JStr(role), "content" := content])
  }

  /** The arguments of `client.chat.completions.create`; the temperature in
      tenths (0.7 is 7). */
  datatype GroqRequest = GroqRequest(messages: seq<Json>, temperatureTenths: nat, maxTokens: nat)

  /** What the Groq client gives back: `choices[0].message.content`, which
      may be `None`, or an exception. */
  datatype GroqOutcome = Completion(content: Option<string>) | GroqError

  /** The configuration decided at start-up: `USE_GROQ` and the client. */
  datatype Backend = Backend(useGroq: bool, groq: GroqRequest -> GroqOutcome)

  /** What a handler returns: `{"answer": ...}` with 200, `{"error": ...}`
      with 400, or an uncaught exception, which Flask turns into 500. */
  datatype Reply = Answer(answer: string) | BadRequest(error: string) | ServerError

  function Status(r: Reply): nat
  {
    match r
    case Answer(_) => 200
    case BadRequest(_) => 400
    case ServerError => 500
  }

  /** `get_fallback_response(q)` wrapped as an answer; `.lower()` exists
      only on strings, anything else raises. */
  function Fallback(question: Json): Reply
  {
    if question.JStr? then Answer(GetFallbackResponse(question.s)) else ServerError
  }

  /** Python's `a or b`. */
  function PyOr(a: Json, b: Json): Json
  {
    if PyTruthy(a) then a else b
  }

  function AskRequest(question: Json): GroqRequest
  {
    GroqRequest([ChatMessage("system", JStr(AskSystemPrompt)), ChatMessage("user", question)], 7, MaxTokens)
  }

  /** `ask`. A body that is not a dict has no `.get` and raises. The log
      line inside the `try` slices the question, which only strings and
      lists allow, and slices the reply, which fails on `None`; both land
      in the `except` branch. */
  function Ask(backend: Backend, body: Json): Reply
  {
    if !body.JObj? then ServerError
    else
      var question := PyOr(PyGet(body.fields, "question"), PyGet(body.fields, "prompt"));
      if !PyTruthy(question) then BadRequest(MissingQuestion)
      else if !backend.useGroq then Fallback(question)
      else if !(question.JStr? || question.JArr?) then Fallback(question)
      else
        match backend.groq(AskRequest(question))
        case Completion(Some(text)) => Answer(text)
        case _ => Fallback(question)
  }

  /** `question` is used unless falsy, then `prompt`; with both falsy the
      request is rejected as a bad request. */
  lemma AskQuestionOrPrompt(backend: Backend, fields: map<string, Json>)
    ensures var question := PyGet(fields, "question");
      var prompt := PyGet(fields, "prompt");
      && (Ask(backend, JObj(fields)) == BadRequest(MissingQuestion) <==> !PyTruthy(question) && !PyTruthy(prompt))
      && (PyTruthy(question) && !backend.useGroq ==> Ask(backend, JObj(fields)) == Fallback(question))
      && (!PyTruthy(question) && PyTruthy(prompt) && !backend.useGroq ==> Ask(backend, JObj(fields)) == Fallback(prompt))
  {
  }

  /** With Groq on and a string question, the question goes to Groq behind
      the fixed system prompt; its text is the answer, and a failure or an
      empty completion falls back to the keyword reply. */
  lemma AskString(backend: Backend, fields: map<string, Json>, question: string)
    requires PyOr(PyGet(fields, "question"), PyGet(fields, "prompt")) == JStr(question) && question != ""
    ensures var out := backend.groq(AskRequest(JStr(question)));
      Ask(backend, JObj(fields)) ==
        if backend.useGroq && out.Completion? && out.content.Some? then Answer(out.content.value)
        else Answer(GetFallbackResponse(question))
  {
  }

  /** A dict body whose chosen question is a string never makes `/ask` fail. */
  lemma AskStringNeverFails(backend: Backend, fields: map<string, Json>)
    requires PyOr(PyGet(fields, "question"), PyGet(fields, "prompt")).JStr?
    ensures Status(Ask(backend, JObj(fields))) != 500
  {
  }

  /** `msg.get("role") == "user"` on a dict. */
  predicate IsUserItem(m: Json)
  {
    m.JObj? && PyGet(m.fields, "role") == JStr("user")
  }

  /** `[msg for msg in messages if msg.get("role") == "user"]`. */
  function UserItems(items: seq<Json>): (r: seq<Json>)
    ensures forall k :: 0 <= k < |r| ==> IsUserItem(r[k])
    ensures r == [] <==> forall j :: 0 <= j < |items| ==> !IsUserItem(items[j])
    decreases |items|
  {
    if items == [] then []
    else
      var last := items[|items| - 1];
      UserItems(items[..|items| - 1]) + (if IsUserItem(last) then [last] else [])
  }

  /** The last element of the filtered list is the last user item. */
  lemma {:induction false} UserItemsLast(items: seq<Json>, i: nat)
    requires i < |items| && IsUserItem(items[i])
    requires forall j :: i < j < |items| ==> !IsUserItem(items[j])
    ensures UserItems(items) != [] && UserItems(items)[|UserItems(items)| - 1] == items[i]
    decreases |items|
  {
    var init := items[..|items| - 1];
    if i < |items| - 1 {
      assert forall j :: i < j < |init| ==> init[j] == items[j];
      UserItemsLast(init, i);
    }
  }

  /** `len(x)` is defined for strings, lists and dicts. */
  predicate HasLen(v: Json)
  {
    v.JStr? || v.JArr? || v.JObj?
  }

  /** `chat`. The log line takes `len` of `messages` before any check; the
      comprehension calls `.get` on every item, which raises for an item
      that is not a dict. The whole list is forwarded to Groq. */
  function Chat(backend: Backend, body: Json): Reply
  {
    if !body.JObj? then ServerError
    else
      var messages := PyGetOr(body.fields, "messages", JArr([]));
      if !HasLen(messages) then ServerError
      else if !PyTruthy(messages) || !messages.JArr? then BadRequest(InvalidMessages)
      else if exists k :: 0 <= k < |messages.items| && !messages.items[k].JObj? then ServerError
      else
        var users := UserItems(messages.items);
        if users == [] then Answer(NoUserQuestion)
        else
          var lastQuestion := PyGetOr(users[|users| - 1].fields, "content", JStr(""));
          if !backend.useGroq then Fallback(lastQuestion)
          else
            match backend.groq(GroqRequest(messages.items, 7, MaxTokens))
            case Completion(Some(text)) => Answer(text)
            case _ => Fallback(lastQuestion)
  }

  /** A missing, empty or non-list `messages` is a bad request, except that
      `null`, booleans and numbers already fail in the log line. */
  lemma ChatValidation(backend: Backend, fields: map<string, Json>)
    ensures var messages := PyGetOr(fields, "messages", JArr([]));
      && ("messages" !in fields ==> Chat(backend, JObj(fields)) == BadRequest(InvalidMessages))
      && (HasLen(messages) && (!messages.JArr? || messages.items == []) ==> Chat(backend, JObj(fields)) == BadRequest(InvalidMessages))
      && (!HasLen(messages) ==> Chat(backend, JObj(fields)) == ServerError)
  {
  }

  /** A list of dicts none of which has role `user` gets the fixed request
      for a question. */
  lemma ChatNoUserMessage(backend: Backend, fields: map<string, Json>, items: seq<Json>)
    requires PyGetOr(fields, "messages", JArr([])) == JArr(items) && items != []
    requires forall j :: 0 <= j < |items| ==> items[j].JObj? && !IsUserItem(items[j])
    ensures Chat(backend, JObj(fields)) == Answer(NoUserQuestion)
  {
  }

  /** Groq gets the full list; without Groq, or when it fails, the reply is
      the fallback for the content of the last user message (`""` when it
      has none). */
  lemma ChatLastUserQuestion(backend: Backend, fields: map<string, Json>, items: seq<Json>, i: nat)
    requires PyGetOr(fields, "messages", JArr([])) == JArr(items)
    requires forall j :: 0 <= j < |items| ==> items[j].JObj?
    requires i < |items| && IsUserItem(items[i])
    requires forall j :: i < j < |items| ==> !IsUserItem(items[j])
    ensures var out := backend.groq(GroqRequest(items, 7, MaxTokens));
      var question := PyGetOr(items[i].fields, "content", JStr(""));
      Chat(backend, JObj(fields)) ==
        if backend.useGroq && out.Completion? && out.content.Some? then Answer(out.content.value)
        else Fallback(question)
  {
    UserItemsLast(items, i);
    var users := UserItems(items);
    assert users[|users| - 1] == items[i];
    var question := PyGetOr(items[i].fields, "content", JStr(""));
    assert !(exists k :: 0 <= k < |items| && !items[k].JObj?);
    assert JArr(items) != JArr([]);
  }

  /** Python's `str()` of a decoded JSON value; that of a list or dict is
      taken as given. */
  function PyStr(v: Json, containerStr: Json -> string): string
  {
    match v
    case JNull => "None"
    case JBool(b) => if b then "True" else "False"
    case JNum(n) => IntToString(n)
    case JStr(s) => s
    case _ => containerStr(v)
  }

  /** `f"This is a {emergency_type} emergency. {question}"`. */
  function EmergencyPrompt(emergencyType: Json, question: Json, containerStr: Json -> string): string
  {
    "This is a " + PyStr(emergencyType, containerStr) + " emergency. " + PyStr(question, containerStr)
  }

  function EmergencyRequest(prompt: string): GroqRequest
  {
    GroqRequest([ChatMessage("system", JStr(EmergencySystemPrompt)), ChatMessage("user", JStr(prompt))], 6, MaxTokens)
  }

  /** `emergency`. */
  function Emergency(backend: Backend, body: Json, containerStr: Json -> string): Reply
  {
    if !body.JObj? then ServerError
    else
      var question := PyGet(body.fields, "question");
      var emergencyType := PyGetOr(body.fields, "emergency_type", JStr("general"));
      if !PyTruthy(question) then BadRequest(MissingEmergency)
      else
        var prompt := EmergencyPrompt(emergencyType, question, containerStr);
        if !backend.useGroq then Answer(FallbackResponses["emergency"])
        else
          match backend.groq(EmergencyRequest(prompt))
          case Completion(Some(text)) => Answer(text)
          case _ => Answer(FallbackResponses["emergency"])
  }

  /** A falsy question (absent, null, empty, zero, an empty container) is
      a bad request, and only then; otherwise the request never fails. The
      prompt names the emergency type, "general" when absent, and then the
      question as `str` renders it; without Groq or when it fails, the reply
      is the fixed emergency text whatever the question says. */
  lemma EmergencyContract(backend: Backend, fields: map<string, Json>, containerStr: Json -> string)
    ensures "question" !in fields ==> Emergency(backend, JObj(fields), containerStr) == BadRequest(MissingEmergency)
    ensures Emergency(backend, JObj(fields), containerStr) == BadRequest(MissingEmergency)
        <==> !PyTruthy(PyGet(fields, "question"))
    ensures PyTruthy(PyGet(fields, "question")) ==>
      var question := PyStr(fields["question"], containerStr);
      var emergencyType := if "emergency_type" in fields then PyStr(fields["emergency_type"], containerStr) else "general";
      var out := backend.groq(EmergencyRequest("This is a " + emergencyType + " emergency. " + question));
      Emergency(backend, JObj(fields), containerStr) ==
        if backend.useGroq && out.Completion? && out.content.Some? then Answer(out.content.value)
        else Answer(EmergencyReply)
  {
  }
}
