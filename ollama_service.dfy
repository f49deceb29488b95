/** `OllamaService` of the offline assistant (offline-activity-assistant/services/ollamaService.ts):
    a singleton that talks to the Ollama chat endpoint after an availability
    check, remembers every successful answer under the normalised text of
    the last user message, persists that map best-effort, and answers from
    it when the endpoint is down or the call fails. */
module OllamaChat {
  import opened Wrappers
  import opened JsonValues
  import opened Text
  import opened Transport
  import opened Conversation
  import opened OllamaApi

  const NoQuestion := "Please provide a question or description."
  const NotAvailable := "Ollama is not available. Please check your connection or start the Ollama service."
  const NoContent := "No valid response content from Ollama"
  const ChatFailed := "Failed to get a response from Ollama. Please check your connection or try again later."

  /** `{ answer }`; the answer is whatever the cache or the server holds. */
  datatype ChatResponse = ChatResponse(answer: Json)

  /** `content.toLowerCase().trim()`: the key for lookups and stores. */
  function CacheKey(content: string): string
  {
    Trim(ToLower(content))
  }

  /** `isAvailable`: GET `/api/tags` with a 3-second abort signal. An ok
      response counts only if its body decodes (`response.json()`) and is
      not `null` (`data.models` is read from it). */
  function IsAvailable(probe: HttpOutcome): bool
  {
    match probe
    case NetFail(_) => false
    case Received(status, _, decoded) =>
      if !IsOk(status) then false
      else if decoded.None? then false
      else GetProp(decoded.value, "models").Success?
  }

  lemma IsAvailableIff(probe: HttpOutcome)
    ensures IsAvailable(probe) <==>
      probe.Received? && IsOk(probe.status) && probe.decoded.Some? && probe.decoded.value != JNull
  {
  }

  function ApiErrorMessage(status: nat): string
  {
    "Ollama API error: " + NatToString(status)
  }

  /** The `try` block of `chat` up to the answer:
      `data.message?.content || 'No valid response content from Ollama'`. */
  function ChatAnswer(reply: HttpOutcome): Result<Json, FetchError>
  {
    match reply
    case NetFail(reason) => Failure(NetworkError(reason))
    case Received(status, _, decoded) =>
      if !IsOk(status) then Failure(HttpError(ApiErrorMessage(status)))
      else if decoded.None? then Failure(SyntaxError)
      else
        match GetProp(decoded.value, "message")
        case Failure(_) => Failure(TypeError)
        case Success(message) =>
          var content := if Nullish(message) then None else GetProp(message.value, "content").value;
          Success(if PropTruthy(content) then content.value else JStr(NoContent))
  }

  /** Every answer the chat call produces is truthy, so a stored answer is
      always found again by the truthiness test of the cache lookup. */
  lemma ChatAnswerTruthy(reply: HttpOutcome)
    requires ChatAnswer(reply).Success?
    ensures JsTruthy(ChatAnswer(reply).value)
  {
  }

  /** A reply without `message.content` still counts as a success; the
      placeholder becomes the answer. */
  lemma MissingContentGivesPlaceholder(status: nat, text: string, fields: map<string, Json>)
    requires IsOk(status) && "message" !in fields
    ensures ChatAnswer(Received(status, text, Some(JObj(fields)))) == Success(JStr(NoContent))
  {
  }

  /** `if (this.responseCache[key]) return this.responseCache[key]; else return text`. */
  function CachedOr(cache: map<string, Json>, key: string, text: string): Json
  {
    if key in cache && JsTruthy(cache[key]) then cache[key] else JStr(text)
  }

  /** What one `chat` call answers, the cache it leaves, and whether it
      starts a save of the cache. */
  datatype ChatStep = ChatStep(answer: Json, cache: map<string, Json>, persist: bool)

  function ChatSpec(cache: map<string, Json>, messages: seq<Message>, probe: HttpOutcome, reply: HttpOutcome): ChatStep
  {
    match LastUser(messages)
    case None => ChatStep(JStr(NoQuestion), cache, false)
    case Some(m) => KeyedChat(cache, CacheKey(m.content), probe, reply)
  }

  /** `chat` once the key of the last user message is known. */
  function KeyedChat(cache: map<string, Json>, key: string, probe: HttpOutcome, reply: HttpOutcome): ChatStep
  {
    if !IsAvailable(probe) then ChatStep(CachedOr(cache, key, NotAvailable), cache, false)
    else
      var result := ChatAnswer(reply);
      if result.Success? then ChatStep(result.value, cache[key := result.value], true)
      else ChatStep(CachedOr(cache, key, ChatFailed), cache, false)
  }

  /** Without a user message the fixed request for a question comes back
      and nothing is stored. */
  lemma NoUserMessage(cache: map<string, Json>, messages: seq<Message>, probe: HttpOutcome, reply: HttpOutcome)
    requires forall j :: 0 <= j < |messages| ==> messages[j].role != User
    ensures ChatSpec(cache, messages, probe, reply) == ChatStep(JStr(NoQuestion), cache, false)
  {
  }

  /** The key is the last user message's content, lower-cased then trimmed. */
  lemma KeyFromLastUserMessage(cache: map<string, Json>, messages: seq<Message>, i: nat, probe: HttpOutcome, reply: HttpOutcome)
    requires i < |messages| && messages[i].role == User
    requires forall j :: i < j < |messages| ==> messages[j].role != User
    requires IsAvailable(probe) && ChatAnswer(reply).Success?
    ensures ChatSpec(cache, messages, probe, reply).cache == cache[CacheKey(messages[i].content) := ChatAnswer(reply).value]
  {
    LastUserAt(messages, i);
    KeyedSuccess(cache, CacheKey(messages[i].content), probe, reply);
  }

  /** A successful call once the key is known. */
  lemma KeyedSuccess(cache: map<string, Json>, key: string, probe: HttpOutcome, reply: HttpOutcome)
    requires IsAvailable(probe) && ChatAnswer(reply).Success?
    ensures KeyedChat(cache, key, probe, reply) == ChatStep(ChatAnswer(reply).value, cache[key := ChatAnswer(reply).value], true)
  {
  }

  /** A successful call answers with the server's answer, stores it under
      the key (replacing an earlier one), keeps every other entry, and saves. */
  lemma SuccessStores(cache: map<string, Json>, messages: seq<Message>, probe: HttpOutcome, reply: HttpOutcome)
    requires LastUser(messages).Some? && IsAvailable(probe) && ChatAnswer(reply).Success?
    ensures var step := ChatSpec(cache, messages, probe, reply);
      var key := CacheKey(LastUser(messages).value.content);
      && step.answer == ChatAnswer(reply).value
      && key in step.cache && step.cache[key] == step.answer
      && step.cache.Keys == cache.Keys + {key}
      && (forall k :: k in cache && k != key ==> step.cache[k] == cache[k])
      && step.persist
  {
    var key := CacheKey(LastUser(messages).value.content);
    assert ChatSpec(cache, messages, probe, reply) == KeyedChat(cache, key, probe, reply);
    KeyedSuccess(cache, key, probe, reply);
    UpdateKeepsOthers(cache, key, ChatAnswer(reply).value);
  }

  lemma UpdateKeepsOthers(cache: map<string, Json>, key: string, v: Json)
    ensures cache[key := v].Keys == cache.Keys + {key}
    ensures forall k :: k in cache && k != key ==> cache[key := v][k] == cache[k]
  {
  }

  /** With the endpoint down, or the call failing, the cache answers if it
      holds a truthy entry for the key; otherwise the fixed notice. Nothing
      is stored either way. */
  lemma FallbackToCache(cache: map<string, Json>, messages: seq<Message>, probe: HttpOutcome, reply: HttpOutcome)
    requires LastUser(messages).Some?
    requires !IsAvailable(probe) || ChatAnswer(reply).Failure?
    ensures var step := ChatSpec(cache, messages, probe, reply);
      var key := CacheKey(LastUser(messages).value.content);
      var notice := if !IsAvailable(probe) then NotAvailable else ChatFailed;
      && step.cache == cache && !step.persist
      && step.answer == (if key in cache && JsTruthy(cache[key]) then cache[key] else JStr(notice))
  {
  }

  /** An answer stored by one call is what a later call for the same
      normalised question returns while the endpoint is down or failing. */
  lemma {:induction false} OfflineReplay(cache: map<string, Json>, first: seq<Message>, later: seq<Message>,
                                         probe1: HttpOutcome, reply1: HttpOutcome, probe2: HttpOutcome, reply2: HttpOutcome)
    requires LastUser(first).Some? && LastUser(later).Some?
    requires CacheKey(LastUser(first).value.content) == CacheKey(LastUser(later).value.content)
    requires IsAvailable(probe1) && ChatAnswer(reply1).Success?
    requires !IsAvailable(probe2) || ChatAnswer(reply2).Failure?
    ensures var step1 := ChatSpec(cache, first, probe1, reply1);
      ChatSpec(step1.cache, later, probe2, reply2).answer == step1.answer
  {
    ChatAnswerTruthy(reply1);
    SuccessStores(cache, first, probe1, reply1);
    var step1 := ChatSpec(cache, first, probe1, reply1);
    FallbackToCache(step1.cache, later, probe2, reply2);
  }

  /** "Best Trail Near Lake " and "best trail near lake" share a key. */
  lemma ExampleKey(content: string)
    requires content == "Best Trail Near Lake "
    ensures CacheKey(content) == "best trail near lake"
  {
    var word := "best trail near lake";
    ExampleLower(content, word + " ");
    TrimEndOneSpace(word);
  }

  lemma ExampleLower(content: string, expected: string)
    requires content == "Best Trail Near Lake " && expected == "best trail near lake "
    ensures ToLower(content) == expected
  {
    var lower := ToLower(content);
    assert |lower| == |expected|;
    forall i | 0 <= i < |content| ensures lower[i] == expected[i] {
      assert lower[i] == LowerChar(content[i]);
      if IsUpper(content[i]) {
        assert i in {0, 5, 11, 16};
      }
    }
  }

  lemma TrimEndOneSpace(word: string)
    requires word == "best trail near lake"
    ensures Trim(word + " ") == word
  {
    var t := word + " ";
    assert !IsJsSpace(t[0]);
    assert TrimStart(t) == t;
    assert t[..|t| - 1] == word;
    assert !IsJsSpace(word[|word| - 1]);
    assert TrimEnd(word) == word;
  }

  /** The cached answer is found whatever the case and the surrounding
      whitespace of the new question: "Best Trail Near Lake " finds the
      entry stored under "best trail near lake". */
  lemma NormalisedLookup(content: string, probe: HttpOutcome, reply: HttpOutcome)
    requires content == "Best Trail Near Lake "
    requires !IsAvailable(probe)
    ensures var cache := map["best trail near lake" := JStr("Pine Ridge Trail")];
      ChatSpec(cache, [Message(User, content)], probe, reply).answer == JStr("Pine Ridge Trail")
  {
    ExampleKey(content);
    var cache := map["best trail near lake" := JStr("Pine Ridge Trail")];
    var messages := [Message(User, content)];
    assert LastUser(messages) == Some(Message(User, content));
    assert ChatSpec(cache, messages, probe, reply) == KeyedChat(cache, "best trail near lake", probe, reply);
  }

  /** The item AsyncStorage holds under 'ollama_response_cache': the saved
      map, or text that does not decode. */
  datatype StoredCache = Entries(entries: map<string, Json>) | Undecodable

  /** The cache after `loadCache` given the current one: a failed read, a
      missing item or an undecodable item leave it as it is; a decoded item
      replaces it. */
  function LoadedCache(current: map<string, Json>, item: Option<StoredCache>, readOk: bool): map<string, Json>
  {
    if !readOk then current
    else match item
      case Some(Entries(m)) => m
      case _ => current
  }

  /** Loading what was saved restores exactly the saved map. */
  lemma LoadRestoresSaved(current: map<string, Json>, saved: map<string, Json>)
    ensures LoadedCache(current, Some(Entries(saved)), true) == saved
  {
  }

  /** AsyncStorage, reduced to the one item this service uses. */
  class Storage {
    var item: Option<StoredCache>

    constructor (item: Option<StoredCache>)
      ensures this.item == item
    {
      this.item := item;
    }
  }

  class OllamaService {
    var responseCache: map<string, Json>
    const storage: Storage

    /** The private constructor; its `loadCache` is taken to finish before
        the first `chat`. */
    constructor (storage: Storage, readOk: bool)
      ensures this.storage == storage
      ensures responseCache == LoadedCache(map[], storage.item, readOk)
    {
      this.storage := storage;
      responseCache := map[];
      new;
      LoadCache(readOk);
    }

    /** `loadCache`; `readOk` is false when `AsyncStorage.getItem` rejects. */
    method LoadCache(readOk: bool)
      modifies this`responseCache
      ensures responseCache == LoadedCache(old(responseCache), storage.item, readOk)
    {
      if !readOk {
        return;
      }
      match storage.item {
        case Some(Entries(m)) =>
          responseCache := m;
        case _ =>
      }
    }

    /** `saveCache`; `writeOk` is false when `AsyncStorage.setItem` rejects,
        which is swallowed and leaves the stored item as it was. */
    method SaveCache(writeOk: bool)
      modifies storage
      ensures storage.item == if writeOk then Some(Entries(responseCache)) else old(storage.item)
    {
      if writeOk {
        storage.item := Some(Entries(responseCache));
      }
    }

    /** `chat`; `probe` is the outcome of the availability request, `reply`
        that of the chat request, `writeOk` that of the save it starts. */
    method Chat(messages: seq<Message>, probe: HttpOutcome, reply: HttpOutcome, writeOk: bool) returns (r: ChatResponse)
      modifies this`responseCache, storage
      ensures var step := ChatSpec(old(responseCache), messages, probe, reply);
        && r == ChatResponse(step.answer)
        && responseCache == step.cache
        && storage.item == if step.persist && writeOk then Some(Entries(step.cache)) else old(storage.item)
    {
      var isAvailable := IsAvailable(probe);
      var lastUserMsg := LastUser(messages);
      if lastUserMsg.None? {
        return ChatResponse(JStr(NoQuestion));
      }
      var cacheKey := CacheKey(lastUserMsg.value.content);
      ghost var step := KeyedChat(responseCache, cacheKey, probe, reply);
      assert ChatSpec(old(responseCache), messages, probe, reply) == step;
      if !isAvailable {
        assert step == ChatStep(CachedOr(responseCache, cacheKey, NotAvailable), responseCache, false);
        if cacheKey in responseCache && JsTruthy(responseCache[cacheKey]) {
          return ChatResponse(responseCache[cacheKey]);
        }
        return ChatResponse(JStr(NotAvailable));
      }
      var result := ChatAnswer(reply);
      if result.Success? {
        assert step == ChatStep(result.value, responseCache[cacheKey := result.value], true);
        responseCache := responseCache[cacheKey := result.value];
        SaveCache(writeOk);
        return ChatResponse(result.value);
      }
      assert step == ChatStep(CachedOr(responseCache, cacheKey, ChatFailed), responseCache, false);
      if cacheKey in responseCache && JsTruthy(responseCache[cacheKey]) {
        return ChatResponse(responseCache[cacheKey]);
      }
      return ChatResponse(JStr(ChatFailed));
    }
  }

  /** The static field `OllamaService.instance`. */
  class Registry {
    var instance: OllamaService?

    constructor ()
      ensures instance == null
    {
      instance := null;
    }

    /** `getInstance`: the first call creates (and loads) the service,
        every later call returns that same object. */
    method GetInstance(storage: Storage, readOk: bool) returns (s: OllamaService)
      modifies this
      ensures old(instance) != null ==> s == old(instance)
      ensures old(instance) == null ==>
                && fresh(s) && s.storage == storage
                && s.responseCache == LoadedCache(map[], storage.item, readOk)
      ensures instance == s
    {
      if instance == null {
        instance := new OllamaService(storage, readOk);
      }
      s := instance;
    }
  }

  /** Two `getInstance` calls give the same object. */
  method SameInstance(registry: Registry, storage: Storage, readOk: bool) returns (a: OllamaService, b: OllamaService)
    modifies registry
    ensures a == b
  {
    a := registry.GetInstance(storage, readOk);
    b := registry.GetInstance(storage, readOk);
  }

  /** Saving the cache and building a new service on the same storage
      gives a service holding the same map. */
  method SaveThenReload(service: OllamaService) returns (reloaded: OllamaService)
    modifies service.storage
    ensures fresh(reloaded) && reloaded.responseCache == service.responseCache
  {
    service.SaveCache(true);
    reloaded := new OllamaService(service.storage, true);
  }
}
