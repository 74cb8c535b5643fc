/** The translator (src/translator.py): engine selection at start-up, and the
    fallback chain Gemini vision -> Gemini text -> Google -> original text,
    which always yields a string. */
module Translation {
  import opened Common
  import Text

  /** The configured default prompt ("Translate the following text into
      Vietnamese:"). */
  const DefaultPrompt: string := "Dịch văn bản sau sang tiếng Việt:"

  /** The note that replaces the text in the vision prompt ("The image contains
      the text to translate"). */
  const ImageNote: string := "(Hình ảnh chứa text cần dịch)"

  /** The settings read from the configuration file; `None` is a missing key. */
  datatype Config = Config(translationEngine: Option<string>, geminiApiKey: Option<string>,
                           geminiMode: Option<string>, customPrompt: Option<string>)

  /** Whether each foreign library step succeeds at start-up: building the
      Google translator (import and constructor), importing the Gemini
      library, and configuring it with the API key. Choosing a Gemini model
      never fails, since its constructor does not validate anything. */
  datatype Libraries = Libraries(googleBuilds: bool, geminiImports: bool, geminiConfigures: bool)

  /** The translator's fields: `engine_type`, whether `gemini_model` and
      `translator` (Google) are set, `gemini_mode` (absent until the Gemini
      set-up reaches it) and `custom_prompt`. */
  datatype TranslatorState = TranslatorState(engineType: string, geminiModel: bool, google: bool,
                                             geminiMode: Option<string>, customPrompt: string)

  /** `is_available()`: some engine was built. */
  predicate Available(t: TranslatorState) { t.geminiModel || t.google }

  /** What start-up guarantees: the Gemini engine type only survives with a
      model and a mode. */
  predicate Consistent(t: TranslatorState) {
    t.engineType == "gemini" ==> t.geminiModel && t.geminiMode.Some?
  }

  /** `_init_google_translate(as_backup)`: on success the Google translator is
      set and, unless it is only a backup, becomes the engine; on failure it is
      cleared. Outside backup mode the Gemini model is cleared either way. */
  function GoogleInitState(t: TranslatorState, asBackup: bool, libs: Libraries): TranslatorState {
    if libs.googleBuilds then
      if asBackup then t.(google := true)
      else t.(google := true, geminiModel := false, engineType := "google")
    else
      if asBackup then t.(google := false)
      else t.(google := false, geminiModel := false)
  }

  /** `_init_gemini`: a failed import reverts to the Google engine type before
      anything is built; otherwise Google is built as a backup, then a missing
      API key or a failed configuration reverts to the Google engine type, and
      only a complete set-up records the mode (default "vision") and the
      model. */
  function GeminiInitState(t: TranslatorState, cfg: Config, libs: Libraries): TranslatorState {
    if !libs.geminiImports then t.(engineType := "google")
    else
      var backed := GoogleInitState(t, true, libs);
      if cfg.geminiApiKey.GetOr("") == "" || !libs.geminiConfigures then backed.(engineType := "google")
      else backed.(geminiMode := Some(cfg.geminiMode.GetOr("vision")), geminiModel := true)
  }

  /** `Translator.__init__`. */
  function InitialState(cfg: Config, libs: Libraries): TranslatorState {
    var t := TranslatorState(cfg.translationEngine.GetOr("google"), false, false, None,
                             cfg.customPrompt.GetOr(DefaultPrompt));
    if t.engineType == "gemini" then GeminiInitState(t, cfg, libs) else GoogleInitState(t, false, libs)
  }

  /** `Translator`: the fields that start-up sets and that the translation
      calls read. */
  class Translator {
    var engineType: string
    var geminiModel: bool
    var google: bool
    var geminiMode: Option<string>
    var customPrompt: string

    function State(): TranslatorState
      reads this
    {
      TranslatorState(engineType, geminiModel, google, geminiMode, customPrompt)
    }

    /** `is_available()`: a Gemini model or a Google translator is set. */
    function IsAvailable(): (b: bool)
      reads this
      ensures b <==> geminiModel || google
    {
      Available(State())
    }

    constructor (cfg: Config, libs: Libraries)
      ensures State() == InitialState(cfg, libs)
    {
      geminiModel, google, geminiMode := false, false, None;
      engineType := cfg.translationEngine.GetOr("google");
      customPrompt := cfg.customPrompt.GetOr(DefaultPrompt);
      new;
      if engineType == "gemini" {
        InitGemini(cfg, libs);
      } else {
        InitGoogleTranslate(false, libs);
      }
    }

    method InitGemini(cfg: Config, libs: Libraries)
      modifies this
      ensures State() == GeminiInitState(old(State()), cfg, libs)
    {
      if !libs.geminiImports {
        engineType := "google";
        return;
      }
      InitGoogleTranslate(true, libs);
      var apiKey := cfg.geminiApiKey.GetOr("");
      if apiKey == "" {
        engineType := "google";
        return;
      }
      if !libs.geminiConfigures {
        engineType := "google";
        return;
      }
      geminiMode := Some(cfg.geminiMode.GetOr("vision"));
      geminiModel := true;
    }

    method InitGoogleTranslate(asBackup: bool, libs: Libraries)
      modifies this
      ensures State() == GoogleInitState(old(State()), asBackup, libs)
    {
      if libs.googleBuilds {
        google := true;
        if !asBackup {
          geminiModel := false;
          engineType := "google";
        }
      } else {
        google := false;
        if !asBackup {
          geminiModel := false;
        }
      }
    }

    /** `translate_batch`: each text translated on its own, in order, with no
        image and no prompt override. */
    method TranslateBatch(texts: seq<string>, engines: Engines) returns (r: seq<string>)
      ensures |r| == |texts|
      ensures forall i :: 0 <= i < |texts| ==> r[i] == Translate(State(), texts[i], None, None, engines)
    {
      if texts == [] {
        return [];
      }
      var results: seq<string> := [];
      var k := 0;
      while k < |texts|
        invariant 0 <= k <= |texts|
        invariant |results| == k
        invariant forall i :: 0 <= i < k ==> results[i] == Translate(State(), texts[i], None, None, engines)
      {
        results := results + [Translate(State(), texts[k], None, None, engines)];
        k := k + 1;
      }
      return results;
    }
  }

  /** What a `generate_content` call does: the response has `text`, or only
      `parts`, or is blocked (neither), or the call raises. */
  datatype GeminiReply = ReplyText(text: string) | ReplyParts(parts: seq<string>) | ReplyBlocked | ReplyRaised

  /** What the Google translator's `translate` call does. */
  datatype GoogleReply = GoogleText(text: string) | GoogleRaised

  /** The remote engines as oracles: Gemini on a text prompt, Gemini on a
      prompt with an image (the image preparation included), and Google on a
      text. */
  datatype Engines = Engines(gemini: string -> GeminiReply, vision: (string, Image) -> GeminiReply,
                             google: string -> GoogleReply)

  /** The usable answer of a Gemini response: its text, or its first part's
      text, stripped; nothing for a blocked response, a raised call or an empty
      part list (indexing it raises). */
  function Answer(reply: GeminiReply): Option<string> {
    match reply
    case ReplyText(s) => Some(Text.Strip(s))
    case ReplyParts(ps) => if |ps| > 0 then Some(Text.Strip(ps[0])) else None
    case _ => None
  }

  /** `prompt_override` unless it is missing or empty, then `custom_prompt`. */
  function BasePrompt(t: TranslatorState, promptOverride: Option<string>): string {
    if promptOverride.Some? && promptOverride.value != "" then promptOverride.value else t.customPrompt
  }

  function TextPrompt(t: TranslatorState, text: string, promptOverride: Option<string>): string {
    BasePrompt(t, promptOverride) + "\n\n" + text
  }

  function VisionPrompt(t: TranslatorState, promptOverride: Option<string>): string {
    BasePrompt(t, promptOverride) + "\n\n" + ImageNote
  }

  /** `_translate_with_google`: Google's answer, or the text itself when the
      call raises (a missing translator raises too). */
  function TranslateWithGoogle(t: TranslatorState, text: string, engines: Engines): (r: string)
    ensures !t.google ==> r == text
    ensures t.google && engines.google(text).GoogleText? ==> r == engines.google(text).text
    ensures r == text || engines.google(text) == GoogleText(r)
  {
    if !t.google then text
    else match engines.google(text)
      case GoogleText(s) => s
      case GoogleRaised => text
  }

  /** `_translate_with_gemini`: Gemini's answer to the text prompt, falling back
      to Google. */
  function TranslateWithGemini(t: TranslatorState, text: string, promptOverride: Option<string>,
                               engines: Engines): (r: string)
    ensures Answer(engines.gemini(TextPrompt(t, text, promptOverride))).Some? ==>
      Answer(engines.gemini(TextPrompt(t, text, promptOverride))) == Some(r)
    ensures Answer(engines.gemini(TextPrompt(t, text, promptOverride))).None? ==>
      r == TranslateWithGoogle(t, text, engines)
    ensures || r == text
            || Answer(engines.gemini(TextPrompt(t, text, promptOverride))) == Some(r)
            || engines.google(text) == GoogleText(r)
  {
    match Answer(engines.gemini(TextPrompt(t, text, promptOverride)))
    case Some(s) => s
    case None => TranslateWithGoogle(t, text, engines)
  }

  /** `_translate_with_gemini_vision`: Gemini's answer to the image prompt,
      falling back to the text path with the same prompt override. */
  function TranslateWithGeminiVision(t: TranslatorState, text: string, image: Image,
                                     promptOverride: Option<string>, engines: Engines): (r: string)
    ensures Answer(engines.vision(VisionPrompt(t, promptOverride), image)).Some? ==>
      Answer(engines.vision(VisionPrompt(t, promptOverride), image)) == Some(r)
    ensures Answer(engines.vision(VisionPrompt(t, promptOverride), image)).None? ==>
      r == TranslateWithGemini(t, text, promptOverride, engines)
    ensures || r == text
            || Answer(engines.vision(VisionPrompt(t, promptOverride), image)) == Some(r)
            || Answer(engines.gemini(TextPrompt(t, text, promptOverride))) == Some(r)
            || engines.google(text) == GoogleText(r)
  {
    match Answer(engines.vision(VisionPrompt(t, promptOverride), image))
    case Some(s) => s
    case None => TranslateWithGemini(t, text, promptOverride, engines)
  }

  /** `translate(text, image=..., prompt=...)`: blank text, or no engine at
      all, comes back unchanged; otherwise the answer of one engine in the
      chain, or the text itself when every engine tried fails. */
  function Translate(t: TranslatorState, text: string, image: Option<Image>,
                     promptOverride: Option<string>, engines: Engines): (r: string)
    ensures Text.IsBlank(text) || !Available(t) ==> r == text
    ensures || r == text
            || Answer(engines.gemini(TextPrompt(t, text, promptOverride))) == Some(r)
            || (image.Some? && Answer(engines.vision(VisionPrompt(t, promptOverride), image.value)) == Some(r))
            || engines.google(text) == GoogleText(r)
  {
    if Text.IsBlank(text) then text
    else if t.engineType == "gemini" && t.geminiModel then
      if image.Some? && t.geminiMode == Some("vision") then
        TranslateWithGeminiVision(t, text, image.value, promptOverride, engines)
      else TranslateWithGemini(t, text, promptOverride, engines)
    else if t.google then TranslateWithGoogle(t, text, engines)
    else text
  }

  /** Gemini is consulted only when the engine type is "gemini" and a model is
      set: otherwise replacing both Gemini oracles changes nothing, and the
      answer is Google's when the Google translator is set. */
  lemma GeminiOnlyWhenSelected(t: TranslatorState, text: string, image: Option<Image>,
                               promptOverride: Option<string>, engines: Engines, other: Engines)
    requires !(t.engineType == "gemini" && t.geminiModel)
    requires forall s :: engines.google(s) == other.google(s)
    ensures Translate(t, text, image, promptOverride, engines) == Translate(t, text, image, promptOverride, other)
    ensures !Text.IsBlank(text) && t.google ==>
      Translate(t, text, image, promptOverride, engines) == TranslateWithGoogle(t, text, engines)
  {
  }

  /** A selected Gemini model is asked before Google: with the engine type
      "gemini" and a model set, non-blank text gets the vision answer when
      vision mode has an image and that call answers, and otherwise Gemini's
      answer to the text prompt when there is one; Google is only reached
      after both fail. */
  lemma GeminiFirstWhenSelected(t: TranslatorState, text: string, image: Option<Image>,
                                promptOverride: Option<string>, engines: Engines)
    requires !Text.IsBlank(text) && t.engineType == "gemini" && t.geminiModel
    ensures var vision := image.Some? && t.geminiMode == Some("vision");
      var visionAnswer := if image.Some? then Answer(engines.vision(VisionPrompt(t, promptOverride), image.value)) else None;
      var textAnswer := Answer(engines.gemini(TextPrompt(t, text, promptOverride)));
      && (vision && visionAnswer.Some? ==> Translate(t, text, image, promptOverride, engines) == visionAnswer.value)
      && ((!vision || visionAnswer.None?) && textAnswer.Some? ==>
            Translate(t, text, image, promptOverride, engines) == textAnswer.value)
      && ((!vision || visionAnswer.None?) && textAnswer.None? ==>
            Translate(t, text, image, promptOverride, engines) == TranslateWithGoogle(t, text, engines))
  {
  }

  /** A blocked, part-less or raising Gemini text call falls back to Google,
      and a raising Google call gives back the original text. */
  lemma GeminiFallsBackToGoogle(t: TranslatorState, text: string, promptOverride: Option<string>,
                                engines: Engines)
    requires !Text.IsBlank(text) && t.engineType == "gemini" && t.geminiModel
    requires Answer(engines.gemini(TextPrompt(t, text, promptOverride))) == None
    ensures Translate(t, text, None, promptOverride, engines) == TranslateWithGoogle(t, text, engines)
    ensures engines.google(text) == GoogleRaised ==> Translate(t, text, None, promptOverride, engines) == text
  {
  }

  /** The vision path is taken only with an image in "vision" mode; when it
      yields no answer, the result is what the text path gives for the same
      text and prompt override. */
  lemma VisionFallsBackToText(t: TranslatorState, text: string, image: Image,
                              promptOverride: Option<string>, engines: Engines)
    requires Answer(engines.vision(VisionPrompt(t, promptOverride), image)) == None || t.geminiMode != Some("vision")
    ensures Translate(t, text, Some(image), promptOverride, engines) == Translate(t, text, None, promptOverride, engines)
  {
  }

  /** The prompt is the override when it is a non-empty string, else the
      configured prompt, then a blank line, then the text or the image note. */
  lemma PromptShape(t: TranslatorState, text: string, promptOverride: Option<string>)
    ensures var base := if promptOverride.Some? && promptOverride.value != "" then promptOverride.value
                        else t.customPrompt;
      && TextPrompt(t, text, promptOverride)[..|base|] == base
      && TextPrompt(t, text, promptOverride)[|base|..|base| + 2] == "\n\n"
      && TextPrompt(t, text, promptOverride)[|base| + 2..] == text
      && VisionPrompt(t, promptOverride)[|base| + 2..] == ImageNote
  {
  }

  /** Start-up always leaves a consistent state. */
  lemma InitialStateConsistent(cfg: Config, libs: Libraries)
    ensures Consistent(InitialState(cfg, libs))
  {
  }

  /** Choosing Gemini builds Google as a backup whenever the Gemini library
      imports; a missing or empty API key, a failed import or a failed
      configuration reverts the engine type to "google" and leaves no model. */
  lemma GeminiStartup(cfg: Config, libs: Libraries)
    requires cfg.translationEngine == Some("gemini")
    ensures var t := InitialState(cfg, libs);
      && (libs.geminiImports ==> t.google == libs.googleBuilds)
      && (!libs.geminiImports ==> !t.google)
      && ((!libs.geminiImports || cfg.geminiApiKey.GetOr("") == "" || !libs.geminiConfigures) ==>
            t.engineType == "google" && !t.geminiModel)
      && ((libs.geminiImports && cfg.geminiApiKey.GetOr("") != "" && libs.geminiConfigures) ==>
            t.engineType == "gemini" && t.geminiModel && t.geminiMode == Some(cfg.geminiMode.GetOr("vision")))
  {
  }

  /** Any other engine choice builds only Google, and `is_available()` after
      start-up holds exactly when some engine could be built. */
  lemma StartupAvailability(cfg: Config, libs: Libraries)
    ensures cfg.translationEngine.GetOr("google") != "gemini" ==>
      !InitialState(cfg, libs).geminiModel && InitialState(cfg, libs).google == libs.googleBuilds
    ensures Available(InitialState(cfg, libs)) <==>
      if cfg.translationEngine.GetOr("google") == "gemini" then
        libs.geminiImports && (libs.googleBuilds || (cfg.geminiApiKey.GetOr("") != "" && libs.geminiConfigures))
      else libs.googleBuilds
  {
  }
}
