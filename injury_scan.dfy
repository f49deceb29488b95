/** The analysis step of the injury scan screen
    (offline-activity-assistant/app/injury-scan.tsx): a prompt is built from
    the photo date and the chosen injury type, sent through `ask`, and the
    answer becomes the shown result. */
module InjuryScan {
  import opened Wrappers
  import opened Text
  import opened JsonValues
  import opened Transport
  import opened QueryService

  const CutAdvice := "The image shows a cut or laceration. Assess severity, recommend treatment steps, and indicate if medical attention is needed."
  const BurnAdvice := "The image shows a burn. " + "Identify" + " likely burn degree, recommend immediate treatment, and indicate if medical attention is needed."
  const RashAdvice := "The image shows a skin rash or irritation. Suggest possible causes, recommend relief measures, and indicate if medical attention is needed."
  const SwellingAdvice := "The image shows swelling or inflammation. Suggest possible causes, recommend immediate treatment options, and indicate if medical attention is needed."
  // The general and burn sentences are written in pieces so that proofs
  // can see the word "Identify" in them.
  const GeneralAdvice := "Identify" + " the type of injury shown, assess severity, recommend immediate first aid steps, and indicate if medical attention is needed."
  const Disclaimer := " Include a disclaimer about limitations of AI medical advice."
  const AnalysisFailed := "Failed to analyze injury. Please try again or refer to the First Aid guide for general guidance."
  const DefaultInjuryType := "general"

  /** The opening sentence naming the date the photo was taken. */
  function Opening(date: string): string
  {
    "Analyze this injury photo taken on " + date + ". "
  }

  /** The sentence the `switch` appends for an injury type. */
  function TypeSentence(injuryType: string): (r: string)
    ensures r in {CutAdvice, BurnAdvice, RashAdvice, SwellingAdvice, GeneralAdvice}
    ensures r == GeneralAdvice <==> injuryType !in {"cut", "burn", "rash", "swelling"}
  {
    match injuryType
    case "cut" => CutAdvice
    case "burn" => BurnAdvice
    case "rash" => RashAdvice
    case "swelling" => SwellingAdvice
    case _ => GeneralAdvice
  }

  /** The prompt sent for a photo taken on `date`. */
  function InjuryPrompt(date: string, injuryType: string): string
  {
    Opening(date) + TypeSentence(injuryType) + Disclaimer
  }

  /** The part of a prompt between the opening and the disclaimer. */
  function MiddleOf(prompt: string, date: string): string
  {
    var start := |Opening(date)|;
    if start + |Disclaimer| <= |prompt| then prompt[start..|prompt| - |Disclaimer|] else ""
  }

  /** The prompt starts with the dated opening, ends with the disclaimer,
      and between them holds exactly the one sentence of the type. */
  lemma PromptShape(date: string, injuryType: string)
    ensures var p := InjuryPrompt(date, injuryType);
      && |p| >= |Opening(date)| + |Disclaimer|
      && p[..|Opening(date)|] == Opening(date)
      && p[|p| - |Disclaimer|..] == Disclaimer
      && MiddleOf(p, date) == TypeSentence(injuryType)
  {
    var p := InjuryPrompt(date, injuryType);
    var o := Opening(date);
    var t := TypeSentence(injuryType);
    assert p == o + t + Disclaimer;
    assert p[..|o|] == o;
    assert p[|o|..|p| - |Disclaimer|] == t;
    assert p[|p| - |Disclaimer|..] == Disclaimer;
  }

  /** For a given date, prompts for two types are equal exactly when the
      types get the same sentence: the four named types are told apart
      and every other type gets the general sentence. */
  lemma PromptIdentifiesSentence(date: string, t1: string, t2: string)
    ensures InjuryPrompt(date, t1) == InjuryPrompt(date, t2) <==> TypeSentence(t1) == TypeSentence(t2)
  {
    PromptShape(date, t1);
    PromptShape(date, t2);
  }

  /** The `+=` steps of `analyzeInjury`. */
  method BuildPrompt(currentDate: string, injuryType: string) returns (prompt: string)
    ensures prompt == InjuryPrompt(currentDate, injuryType)
  {
    prompt := "Analyze this injury photo taken on " + currentDate + ". ";
    if injuryType == "cut" {
      prompt := prompt + CutAdvice;
    } else if injuryType == "burn" {
      prompt := prompt + BurnAdvice;
    } else if injuryType == "rash" {
      prompt := prompt + RashAdvice;
    } else if injuryType == "swelling" {
      prompt := prompt + SwellingAdvice;
    } else {
      prompt := prompt + GeneralAdvice;
    }
    prompt := prompt + Disclaimer;
  }

  /** When `ask` falls back, a prompt whose type sentence holds
      "Identify" is read as a plant question. */
  lemma IdentifySentenceOfflineIsPlantText(date: string, injuryType: string, reason: string, at: nat)
    requires at + 8 <= |TypeSentence(injuryType)| && TypeSentence(injuryType)[at..at + 8] == "Identify"
    ensures LlamaService.Ask(InjuryPrompt(date, injuryType), NetFail(reason)).answer == JStr(PlantOffline)
  {
    var t := TypeSentence(injuryType);
    var p := InjuryPrompt(date, injuryType);
    assert p == Opening(date) + t + Disclaimer;
    PromptHoldsIdentify(Opening(date), t, Disclaimer, at);
    OfflineIdentify(p, reason);
  }

  /** A word "Identify" inside the middle part of a concatenation makes
      the lower-cased whole contain "identify". */
  lemma PromptHoldsIdentify(a: string, t: string, d: string, at: nat)
    requires at + 8 <= |t| && t[at..at + 8] == "Identify"
    ensures Contains(ToLower(a + t + d), "identify")
  {
    MiddleSlice(a, t, d, at, 8);
    LowerContainsIdentify(a + t + d, |a| + at);
  }

  /** The general sentence starts with "Identify", so a general prompt
      that falls back gets the plant text. */
  lemma GeneralPromptOfflineIsPlantText(date: string, injuryType: string, reason: string)
    requires injuryType !in {"cut", "burn", "rash", "swelling"}
    ensures LlamaService.Ask(InjuryPrompt(date, injuryType), NetFail(reason)).answer == JStr(PlantOffline)
  {
    assert TypeSentence(injuryType) == GeneralAdvice;
    GeneralAdviceStart(GeneralAdvice);
    IdentifySentenceOfflineIsPlantText(date, injuryType, reason, 0);
  }

  lemma GeneralAdviceStart(s: string)
    requires s == GeneralAdvice
    ensures |s| >= 8 && s[..8] == "Identify"
  {
  }

  /** The burn sentence asks to "Identify" the burn degree, so a burn
      analysed offline gets the plant text too. */
  lemma BurnPromptOfflineIsPlantText(date: string, reason: string)
    ensures LlamaService.Ask(InjuryPrompt(date, "burn"), NetFail(reason)).answer == JStr(PlantOffline)
  {
    BurnAdviceIdentify(BurnAdvice);
    IdentifySentenceOfflineIsPlantText(date, "burn", reason, 24);
  }

  lemma BurnAdviceIdentify(s: string)
    requires s == BurnAdvice
    ensures |s| >= 32 && s[24..32] == "Identify"
  {
  }

  /** A prompt holding "Identify" contains "identify" once lower-cased. */
  lemma LowerContainsIdentify(p: string, o: nat)
    requires o + 8 <= |p| && p[o..o + 8] == "Identify"
    ensures Contains(ToLower(p), "identify")
  {
    var lower := ToLower(p);
    forall k | 0 <= k < 8 ensures lower[o + k] == "identify"[k] {
      assert p[o + k] == p[o..o + 8][k];
      IdentifyLetter(k);
    }
    assert lower[o..o + 8] == "identify";
    ContainsAt(lower, "identify", o);
  }

  /** Lower-casing "Identify" letter by letter gives "identify". */
  lemma IdentifyLetter(k: int)
    requires 0 <= k < 8
    ensures LowerChar("Identify"[k]) == "identify"[k]
  {
    if k == 0 {
      assert IsUpper('I');
    } else {
      assert "Identify"[k] == "identify"[k];
    }
  }

  /** The screen state that `analyzeInjury` reads and sets. */
  class InjuryScanScreen {
    var photo: Option<string>
    var isAnalyzing: bool
    var result: Option<Json>
    var injuryType: string

    constructor ()
      ensures photo == None && !isAnalyzing && result == None && injuryType == DefaultInjuryType
    {
      photo := None;
      isAnalyzing := false;
      result := None;
      injuryType := DefaultInjuryType;
    }

    /** `analyzeInjury`; `currentDate` is `toLocaleDateString()` of the
        current time and `reply` what the network does with the request.
        `ask` cannot fail, so the `catch` branch with the failure text is
        never taken. */
    method AnalyzeInjury(currentDate: string, reply: HttpOutcome)
      modifies this
      ensures old(photo).None? || old(photo) == Some("") ==>
        photo == old(photo) && isAnalyzing == old(isAnalyzing) && result == old(result) && injuryType == old(injuryType)
      ensures old(photo).Some? && old(photo) != Some("") ==>
        && result == Some(LlamaService.Ask(InjuryPrompt(currentDate, old(injuryType)), reply).answer)
        && !isAnalyzing && photo == old(photo) && injuryType == old(injuryType)
    {
      if photo.None? || photo.value == "" {
        return;
      }
      isAnalyzing := true;
      var prompt := BuildPrompt(currentDate, injuryType);
      var response := LlamaService.Ask(prompt, reply);
      result := Some(response.answer);
      isAnalyzing := false;
    }
  }
}
