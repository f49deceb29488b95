/** `LlamaService` of the offline assistant (offline-activity-assistant/services/llamaService.ts).
    `Ask`, `Chat` and `Emergency` are total: a transport failure becomes
    the keyword-matched offline text. `IsBackendAvailable` keeps a verdict
    for 30 seconds and otherwise probes through `Ask`. */
module QueryService {
  import opened Wrappers
  import opened JsonValues
  import opened Text
  import opened Transport
  import opened Conversation
  import opened KeywordRules
  import OllamaApi

  /** `{ answer: ... }`. The transport may deliver any decoded value. */
  datatype QueryResult = QueryResult(answer: Json)

  const PlantOffline := "I cannot identify plants while offline. Please describe the plant in detail when connection is restored. Never touch or consume unidentified plants."
  const EmergencyOffline := "For emergencies, please call emergency services immediately. This app cannot provide reliable emergency assistance while offline."
  const HikingOffline := "I cannot provide specific hiking information while offline. Always be prepared with maps, water, and emergency supplies when hiking."
  const GenericOffline := "I'm currently in offline mode and can't process your request. Please try again when connected to the internet."

  const AskApology := "Sorry, I could not process your request at this time."
  const ChatApology := "Sorry, I could not process your chat request."
  const EmergencyApology := "For any medical emergency, please call emergency services immediately (911 in the US). Do not rely solely on AI for urgent medical assistance."

  /** The probe prompt of `isBackendAvailable`. */
  const ProbePrompt := "test"

  /** `cacheValidityDuration`: 30 seconds, in milliseconds. */
  const ValidityWindow := 30000

  /** The offline keyword rules, in the order they are tried. */
  const OfflineRules := [
    Rule(["plant", "identify"], PlantOffline),
    Rule(["emergency", "help", "urgent"], EmergencyOffline),
    Rule(["hike", "trail"], HikingOffline)
  ]

  /** The fields `lastCheckTime` and `isBackendAvailableCache`. */
  datatype AvailabilityState = AvailabilityState(lastCheckTime: int, verdict: Option<bool>)

  const InitialAvailability := AvailabilityState(0, None)

  /** What one `isBackendAvailable` call returns, the state it leaves and
      whether it sent a probe. */
  datatype CheckOutcome = CheckOutcome(verdict: bool, next: AvailabilityState, probed: bool)

  /** A stored verdict is used while `now - lastCheckTime < 30000`. */
  predicate Fresh(s: AvailabilityState, now: int)
  {
    s.verdict.Some? && now - s.lastCheckTime < ValidityWindow
  }

  /** One `isBackendAvailable` call at time `now`. The probe goes through
      the total `ask`, so it never raises, and the verdict it records is
      always `true`. */
  function CheckAvailability(s: AvailabilityState, now: int): CheckOutcome
  {
    if Fresh(s, now) then CheckOutcome(s.verdict.value, s, false)
    else CheckOutcome(true, AvailabilityState(now, Some(true)), true)
  }

  /** A fresh verdict is returned as stored, with no probe and no change. */
  lemma FreshVerdictReused(s: AvailabilityState, now: int)
    requires Fresh(s, now)
    ensures CheckAvailability(s, now) == CheckOutcome(s.verdict.value, s, false)
  {
  }

  /** A stale or missing verdict triggers one probe and records its time. */
  lemma StaleVerdictProbed(s: AvailabilityState, now: int)
    requires !Fresh(s, now)
    ensures var out := CheckAvailability(s, now);
      out.probed && out.next.lastCheckTime == now && out.next.verdict == Some(out.verdict)
  {
  }

  /** The first call always probes, because no verdict is stored yet. */
  lemma FirstCallProbes(now: int)
    ensures CheckAvailability(InitialAvailability, now).probed
  {
  }

  /** The verdicts and the number of probes of a series of calls. */
  datatype RunOutcome = RunOutcome(verdicts: seq<bool>, probes: nat, last: AvailabilityState)

  function Run(s: AvailabilityState, times: seq<int>): (r: RunOutcome)
    ensures |r.verdicts| == |times|
    ensures r.probes <= |times|
    decreases |times|
  {
    if times == [] then RunOutcome([], 0, s)
    else
      var out := CheckAvailability(s, times[0]);
      var rest := Run(out.next, times[1..]);
      RunOutcome([out.verdict] + rest.verdicts, rest.probes + (if out.probed then 1 else 0), rest.last)
  }

  /** No stored verdict is ever `false`, so from the initial state the
      availability check reports `true` on every call, whatever the network
      does. */
  lemma {:induction false} VerdictAlwaysTrue(s: AvailabilityState, times: seq<int>)
    requires s.verdict != Some(false)
    ensures forall k :: 0 <= k < |times| ==> Run(s, times).verdicts[k]
    ensures Run(s, times).last.verdict != Some(false)
    decreases |times|
  {
    if times != [] {
      var out := CheckAvailability(s, times[0]);
      VerdictAlwaysTrue(out.next, times[1..]);
    }
  }

  /** Two calls less than 30 seconds apart probe once; a third call 30
      seconds or more after the first probe probes once more. */
  lemma WindowedProbing(t1: int, t2: int, t3: int)
    requires t2 - t1 < ValidityWindow
    requires t3 - t1 >= ValidityWindow
    ensures Run(InitialAvailability, [t1, t2]).probes == 1
    ensures Run(InitialAvailability, [t1, t2, t3]).probes == 2
  {
    var s1 := AvailabilityState(t1, Some(true));
    assert CheckAvailability(InitialAvailability, t1) == CheckOutcome(true, s1, true);
    assert CheckAvailability(s1, t2) == CheckOutcome(true, s1, false);
    assert CheckAvailability(s1, t3).probed;
    assert Run(s1, [t3]).probes == 1 by { assert [t3][1..] == []; }
    assert Run(s1, [t2]).probes == 0 by { assert [t2][1..] == []; }
    assert Run(s1, [t2, t3]).probes == 1 by { assert [t2, t3][1..] == [t3]; }
    assert [t1, t2][1..] == [t2];
    assert [t1, t2, t3][1..] == [t2, t3];
  }

  class LlamaService {
    var lastCheckTime: int
    var isBackendAvailableCache: Option<bool>
    const cacheValidityDuration := ValidityWindow
    /** Number of availability probes sent so far. */
    ghost var probes: nat

    function State(): AvailabilityState
      reads this
    {
      AvailabilityState(lastCheckTime, isBackendAvailableCache)
    }

    constructor ()
      ensures State() == InitialAvailability && probes == 0
    {
      lastCheckTime := 0;
      isBackendAvailableCache := None;
      probes := 0;
    }

    /** `getOfflineResponse`: lower-case the prompt and try the plant,
        emergency and hiking keywords in this order. */
    static function GetOfflineResponse(prompt: string): (r: string)
      ensures r in {PlantOffline, EmergencyOffline, HikingOffline, GenericOffline}
      ensures r != ""
    {
      var lowerPrompt := ToLower(prompt);
      if Contains(lowerPrompt, "plant") || Contains(lowerPrompt, "identify") then PlantOffline
      else if Contains(lowerPrompt, "emergency") || Contains(lowerPrompt, "help") || Contains(lowerPrompt, "urgent") then EmergencyOffline
      else if Contains(lowerPrompt, "hike") || Contains(lowerPrompt, "trail") then HikingOffline
      else GenericOffline
    }

    /** `ask`: the transport's answer, or on any failure the offline text
        (the apology behind `||` is used only for an empty offline text). */
    static function Ask(prompt: string, transport: HttpOutcome): QueryResult
    {
      match OllamaApi.AskOllama(transport)
      case Success(response) => QueryResult(response)
      case Failure(_) =>
        var fallbackResponse := GetOfflineResponse(prompt);
        QueryResult(JStr(if fallbackResponse != "" then fallbackResponse else AskApology))
    }

    /** `messages.find(m => m.role === 'user')?.content || ''`. */
    static function FirstUserContent(messages: seq<Message>): string
    {
      match FirstUser(messages)
      case Some(m) => if m.content != "" then m.content else ""
      case None => ""
    }

    /** `chat`: only the first user message is sent, through `ask`, whose
        totality makes the chat apology unreachable. */
    static function Chat(messages: seq<Message>, transport: HttpOutcome): QueryResult
    {
      Ask(FirstUserContent(messages), transport)
    }

    static function EmergencyPrompt(question: string, emergencyType: string): string
    {
      "EMERGENCY SITUATION - " + emergencyType + ": " + question + ". Please provide immediate first aid guidance."
    }

    /** `emergency`: building the prompt cannot fail and `ask` never raises,
        so the emergency apology is never produced. */
    static function Emergency(question: string, emergencyType: string, transport: HttpOutcome): QueryResult
    {
      Ask(EmergencyPrompt(question, emergencyType), transport)
    }

    /** `isBackendAvailable` at time `now`; `probe` is what the network does
        with the probe request, if one is sent. */
    method IsBackendAvailable(now: int, probe: HttpOutcome) returns (verdict: bool)
      modifies this
      ensures var out := CheckAvailability(old(State()), now);
        verdict == out.verdict && State() == out.next
        && probes == old(probes) + (if out.probed then 1 else 0)
    {
      if isBackendAvailableCache.Some? && now - lastCheckTime < cacheValidityDuration {
        return isBackendAvailableCache.value;
      }
      var _ := Ask(ProbePrompt, probe);
      probes := probes + 1;
      isBackendAvailableCache := Some(true);
      lastCheckTime := now;
      return true;
    }
  }

  /** The if-chain of `getOfflineResponse` is the rule table `OfflineRules`
      applied to the lower-cased prompt. */
  lemma OfflineResponseIsRuleTable(prompt: string)
    ensures LlamaService.GetOfflineResponse(prompt) == FirstMatch(OfflineRules, ToLower(prompt), GenericOffline)
  {
    var t := ToLower(prompt);
    var r0, r1, r2 := OfflineRules[0], OfflineRules[1], OfflineRules[2];
    MatchesTwo(r0, t);
    MatchesThree(r1, t);
    MatchesTwo(r2, t);
    assert OfflineRules == [r0] + ([r1] + ([r2] + []));
    FirstMatchCons(r0, [r1] + ([r2] + []), t, GenericOffline);
    FirstMatchCons(r1, [r2] + [], t, GenericOffline);
    FirstMatchCons(r2, [], t, GenericOffline);
  }

  /** "help identify plant" is a plant question before it is a call for help. */
  lemma PlantBeatsHelp(s: string)
    requires s == "help identify plant"
    ensures LlamaService.GetOfflineResponse(s) == PlantOffline
  {
    assert s[14..19] == "plant";
    LowerKeepsOccurrence(s, "plant", 14);
    ContainsAt(ToLower(s), "plant", 14);
  }

  /** On success `ask` returns exactly the transport's answer; on failure
      the offline text for the prompt, which is never empty, so the
      apology is never returned. */
  lemma AskFallsBack(prompt: string, transport: HttpOutcome)
    ensures var r := OllamaApi.AskOllama(transport);
      LlamaService.Ask(prompt, transport).answer
        == if r.Success? then r.value else JStr(LlamaService.GetOfflineResponse(prompt))
    ensures OllamaApi.AskOllama(transport).Failure? ==> LlamaService.Ask(prompt, transport).answer != JStr(AskApology)
  {
  }

  /** Offline, a prompt mentioning "identify" in any letter case gets the
      plant text. */
  lemma OfflineIdentify(prompt: string, reason: string)
    requires Contains(ToLower(prompt), "identify")
    ensures LlamaService.Ask(prompt, NetFail(reason)).answer == JStr(PlantOffline)
  {
  }

  /** Offline, "Can you identify this plant?" gets the plant text, not the
      generic offline text. */
  lemma OfflinePlantQuestion(s: string, reason: string)
    requires s == "Can you identify this plant?"
    ensures LlamaService.Ask(s, NetFail(reason)).answer == JStr(PlantOffline)
  {
    var t := ToLower(s);
    assert t[22..27] == "plant";
    ContainsAt(t, "plant", 22);
  }

  lemma {:induction false} FirstUserIndexAppend(messages: seq<Message>, later: seq<Message>)
    requires FirstUserIndex(messages) < |messages|
    ensures FirstUserIndex(messages + later) == FirstUserIndex(messages)
  {
    if messages[0].role != User {
      assert (messages + later)[1..] == messages[1..] + later;
      FirstUserIndexAppend(messages[1..], later);
    }
  }

  /** `chat` sends the content of the first user message, or "" when there
      is none, and nothing from the other messages. */
  lemma ChatSendsFirstUser(messages: seq<Message>, transport: HttpOutcome)
    ensures var i := FirstUserIndex(messages);
      LlamaService.Chat(messages, transport)
        == LlamaService.Ask(if i < |messages| then messages[i].content else "", transport)
  {
    FirstUserContentIs(messages);
  }

  /** The text `chat` takes from the conversation. */
  lemma FirstUserContentIs(messages: seq<Message>)
    ensures var i := FirstUserIndex(messages);
      LlamaService.FirstUserContent(messages) == if i < |messages| then messages[i].content else ""
  {
    var i := FirstUserIndex(messages);
    assert FirstUser(messages) == if i < |messages| then Some(messages[i]) else None;
  }

  /** Messages after the first user message do not change the chat answer. */
  lemma ChatIgnoresLaterMessages(messages: seq<Message>, later: seq<Message>, transport: HttpOutcome)
    requires exists i :: 0 <= i < |messages| && messages[i].role == User
    ensures LlamaService.Chat(messages + later, transport) == LlamaService.Chat(messages, transport)
  {
    FirstUserIndexAppend(messages, later);
    assert (messages + later)[FirstUserIndex(messages)] == messages[FirstUserIndex(messages)];
  }

  /** The lower-cased emergency prompt always contains "emergency". */
  lemma EmergencyPromptSaysEmergency(question: string, emergencyType: string)
    ensures Contains(ToLower(LlamaService.EmergencyPrompt(question, emergencyType)), "emergency")
  {
    var p := LlamaService.EmergencyPrompt(question, emergencyType);
    assert p[..9] == "EMERGENCY";
    ToLowerPrefix(p, "EMERGENCY");
    assert ToLower("EMERGENCY") == "emergency";
    ContainsAt(ToLower(p), "emergency", 0);
  }

  /** Offline, an emergency question gets the emergency offline text unless
      it also mentions plants, which are tried first. */
  lemma EmergencyOfflineText(question: string, emergencyType: string, reason: string)
    requires var t := ToLower(LlamaService.EmergencyPrompt(question, emergencyType));
      !Contains(t, "plant") && !Contains(t, "identify")
    ensures LlamaService.Emergency(question, emergencyType, NetFail(reason)).answer == JStr(EmergencyOffline)
  {
    EmergencyPromptSaysEmergency(question, emergencyType);
  }

  /** When the request fails, `emergency` answers with the offline text,
      never with its own apology. */
  lemma EmergencyApologyUnreachable(question: string, emergencyType: string, transport: HttpOutcome)
    requires OllamaApi.AskOllama(transport).Failure?
    ensures LlamaService.Emergency(question, emergencyType, transport).answer != JStr(EmergencyApology)
  {
  }
}
