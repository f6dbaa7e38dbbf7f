/**
 * The prompts the pages send to the language model, and how the pages cut
 * the model's tagged replies back down to their text. Both the home page
 * and the writing page build the user prompt the same way; it is defined
 * once here.
 */
module Prompts {
  import opened JsStrings

  const OldTextOpen: string := "<old_text>"
  const OldTextClose: string := "</old_text>"
  const SpeechOpen: string := "<speech>"
  const SpeechClose: string := "</speech>"
  const TextOpen: string := "<text>"
  const TextClose: string := "</text>"
  const LanguageOpen: string := "<target_language>"
  const LanguageClose: string := "</target_language>"

  /** `generateUserInput(oldText, transcript)`: the previous text and the new
      speech, each in its own tag. */
  function GenerateUserInput(oldText: string, transcript: string): (p: string)
    ensures |p| == |oldText| + |transcript| + 38
  {
    OldTextOpen + oldText + OldTextClose + SpeechOpen + transcript + SpeechClose
  }

  /** Both parts can be cut back out of the user prompt by position, between
      its opening and closing tags. */
  lemma UserInputFields(oldText: string, transcript: string)
    ensures var p := GenerateUserInput(oldText, transcript);
      Slice(p, 10, 10 + |oldText|) == oldText &&
      Slice(p, 29 + |oldText|, -9) == transcript &&
      p[..10] == OldTextOpen && p[|p| - 9..] == SpeechClose
  {
    var p := GenerateUserInput(oldText, transcript);
    assert p[10..10 + |oldText|] == oldText;
    assert p[29 + |oldText|..|p| - 9] == transcript;
  }

  /** `generateTranslateInput(text, targetLanguage)` */
  function GenerateTranslateInput(text: string, targetLanguage: string): (p: string)
    ensures |p| == |text| + |targetLanguage| + 48
  {
    TextOpen + text + TextClose + LanguageOpen + targetLanguage + LanguageClose
  }

  /** The text and the language can be cut back out of the translation prompt. */
  lemma TranslateInputFields(text: string, targetLanguage: string)
    ensures var p := GenerateTranslateInput(text, targetLanguage);
      Slice(p, 6, 6 + |text|) == text && Slice(p, 30 + |text|, -18) == targetLanguage
  {
    var p := GenerateTranslateInput(text, targetLanguage);
    assert p[6..6 + |text|] == text;
    assert p[30 + |text|..|p| - 18] == targetLanguage;
  }

  /** The two parts of a user prompt are determined by the prompt once the
      length of the first is known. */
  lemma UserInputInjective(o1: string, t1: string, o2: string, t2: string)
    requires |o1| == |o2|
    requires GenerateUserInput(o1, t1) == GenerateUserInput(o2, t2)
    ensures o1 == o2 && t1 == t2
  {
    UserInputFields(o1, t1);
    UserInputFields(o2, t2);
  }

  /** Without that length the tags do not separate the parts: moving a
      closing and an opening tag with the text between them from the old
      text into the transcript gives the same prompt. */
  lemma UserInputAmbiguous(a: string, b: string, c: string)
    ensures GenerateUserInput(a + OldTextClose + SpeechOpen + b, c) ==
            GenerateUserInput(a, b + OldTextClose + SpeechOpen + c)
  {
    var tags := OldTextClose + SpeechOpen;
    calc {
      GenerateUserInput(a + tags + b, c);
      OldTextOpen + (a + tags + b) + tags + c + SpeechClose;
      { assert OldTextOpen + (a + tags + b) + tags + c == OldTextOpen + a + tags + (b + tags + c); }
      OldTextOpen + a + tags + (b + tags + c) + SpeechClose;
      GenerateUserInput(a, b + tags + c);
    }
  }

  /** `reply.slice(10, -11)`: an LLM reply without its 10-character opening
      and 11-character closing tags. */
  function ReplyText(reply: string): (r: string)
    ensures |reply| >= 21 ==> r == reply[10..|reply| - 11]
    ensures |reply| <= 21 ==> r == ""
  {
    Slice(reply, 10, -11)
  }

  /** A reply wrapped in tags of those lengths gives back exactly its body. */
  lemma ReplyTextUnwraps(open: string, body: string, close: string)
    requires |open| == 10 && |close| == 11
    ensures ReplyText(open + body + close) == body
  {
    SliceUnwraps(open, body, close);
  }

  /** `completion.slice(10)`: the reply so far, without its opening tag. */
  function StreamedReplyText(completion: string): (r: string)
    ensures |completion| >= 10 ==> r == completion[10..]
    ensures |completion| <= 10 ==> r == ""
  {
    SliceFrom(completion, 10)
  }

  /** While the reply streams in, the text shown only ever grows at its end;
      when it is complete (the closing tag has arrived), it extends the
      final text by that tag. */
  lemma StreamedReplyGrows(partial: string, completion: string)
    requires partial <= completion
    ensures StreamedReplyText(partial) <= StreamedReplyText(completion)
    ensures |completion| >= 21 ==>
      StreamedReplyText(completion) == ReplyText(completion) + completion[|completion| - 11..]
  {
    SliceFromPrefix(partial, completion, 10);
    if |completion| >= 21 {
      assert completion[10..] == completion[10..|completion| - 11] + completion[|completion| - 11..];
    }
  }
}
