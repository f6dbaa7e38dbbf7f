/**
 * The writing page: recording speech, sending it with the previous text to
 * the model, keeping the previous and the new reply text side by side, and
 * the export view that asks for a translation.
 */
module Creation {
  import opened Wrappers
  import opened JsStrings
  import opened Prompts
  import opened AsrClientModel
  import opened UseAsr

  /** `TextLLM`: the text before the last reply, and the last reply's text. */
  datatype TextLLM = TextLLM(oldText: string, newText: string)

  /** The reply text shown (and copied): the kept text, except while a reply
      streams in after the recording ended, when the streamed part is shown. */
  function ShownText(isLoading: bool, asrStatus: Status, textLLM: TextLLM, completion: string): (t: string)
    ensures !isLoading || asrStatus == Recording ==> t == textLLM.newText
    ensures isLoading && asrStatus != Recording && |completion| >= 10 ==> t == completion[10..]
    ensures isLoading && asrStatus != Recording && |completion| <= 10 ==> t == ""
  {
    if !isLoading || asrStatus == Recording then textLLM.newText else StreamedReplyText(completion)
  }

  /** Once the reply is complete and kept, the text shown is the streamed
      text without the closing tag; it does not jump elsewhere. */
  lemma ShownTextSettles(asrStatus: Status, kept: string, completion: string)
    requires asrStatus != Recording && |completion| >= 21
    ensures ShownText(true, asrStatus, TextLLM(kept, ""), completion) ==
            ShownText(false, asrStatus, TextLLM(kept, ReplyText(completion)), completion) +
            completion[|completion| - 11..]
  {
    StreamedReplyGrows(completion, completion);
  }

  /** The translation shown: the reply without its 11-character opening tag
      while loading, and without its 12-character closing tag as well once done. */
  function TranslatedText(completion: string, isLoading: bool): (t: string)
    ensures isLoading && |completion| >= 11 ==> t == completion[11..]
    ensures !isLoading && |completion| >= 23 ==> t == completion[11..|completion| - 12]
    ensures (if isLoading then |completion| <= 11 else |completion| <= 23) ==> t == ""
  {
    if isLoading then SliceFrom(completion, 11) else Slice(completion, 11, -12)
  }

  /** A complete translation wrapped in tags of those lengths shows exactly
      its body; while it streams in, the text shown only grows. */
  lemma TranslatedTextUnwraps(open: string, body: string, close: string, partial: string, completion: string)
    requires |open| == 11 && |close| == 12
    requires partial <= completion
    ensures TranslatedText(open + body + close, false) == body
    ensures TranslatedText(partial, true) <= TranslatedText(completion, true)
  {
    SliceUnwraps(open, body, close);
    SliceFromPrefix(partial, completion, 11);
  }

  /** The `Write` component. `textLLM` is owned by the enclosing page and
      updated through the setter it passes down. */
  class Writer {
    const asr: AsrHook
    var textLLM: TextLLM
    /** `oldTextLLMRef.current` */
    var oldTextLLMRef: string
    /** The completion hook's `input`, which the button's click sets. */
    var input: string

    constructor (deployEnv: Option<string>)
      ensures fresh(asr) && asr.client == null && asr.View() == InitialView
      ensures textLLM == TextLLM("", "") && oldTextLLMRef == "" && input == ""
    {
      asr := new AsrHook(deployEnv);
      textLLM := TextLLM("", "");
      oldTextLLMRef := "";
      input := "";
    }

    /** The microphone button: start recording, keep the current text as the
        old one, and clear the new one. */
    method MicClick()
      modifies this`oldTextLLMRef, this`textLLM, asr
      ensures oldTextLLMRef == old(textLLM.newText)
      ensures textLLM == TextLLM(old(textLLM.newText), "")
      ensures fresh(asr.client) && asr.Valid() && asr.View() == HookView("", Recording, "")
    {
      asr.StartRecording();
      oldTextLLMRef := textLLM.newText;
      textLLM := TextLLM(oldTextLLMRef, "");
    }

    /** The send button: stop recording, and prompt with the kept old text
        and the transcript. */
    method SendClick()
      modifies this`input, asr.client
      ensures input == GenerateUserInput(oldTextLLMRef, old(asr.View().transcript))
      ensures asr.View() == old(asr.View())
    {
      asr.StopRecording();
      input := GenerateUserInput(oldTextLLMRef, asr.View().transcript);
    }

    /** The completion's `onFinish`: the old text is the kept one, the new
        text is the reply without its tags. */
    method OnFinish(completion: string)
      modifies this`textLLM
      ensures textLLM.oldText == oldTextLLMRef
      ensures textLLM.newText == ReplyText(completion)
    {
      textLLM := TextLLM(oldTextLLMRef, ReplyText(completion));
    }
  }

  datatype Language = English | Spanish

  /** The option values of the language select. */
  function LanguageName(l: Language): (name: string)
    ensures name in {"english", "spanish"}
    ensures name == "english" <==> l == English
  {
    match l
    case English => "english"
    case Spanish => "spanish"
  }

  /** The `Export` component. */
  class Exporter {
    /** `targetLanguageRef.current` */
    var targetLanguage: Language
    /** The completion hook's `input`, which the button's click sets. */
    var input: string

    constructor ()
      ensures targetLanguage == English && input == ""
    {
      targetLanguage := English;
      input := "";
    }

    /** The select's `onChange`. */
    method SelectLanguage(l: Language)
      modifies this`targetLanguage
      ensures targetLanguage == l
    {
      targetLanguage := l;
    }

    /** The translate button: prompt with the current text and the language. */
    method TranslateClick(textLLM: TextLLM)
      modifies this`input
      ensures input == GenerateTranslateInput(textLLM.newText, LanguageName(targetLanguage))
    {
      input := GenerateTranslateInput(textLLM.newText, LanguageName(targetLanguage));
    }
  }
}
