/**
 * The home page: a start screen, a 3-2-1 countdown, the recording screen,
 * a one-time animation, and the main screen showing the model's reply or
 * the original transcript. Each effect and handler that changes page state
 * is a method; the texts derived for display are functions.
 */
module HomePage {
  import opened Wrappers
  import opened JsStrings
  import opened Prompts
  import opened AsrClientModel
  import opened UseAsr

  const PermissionMessage: string := "无法使用麦克风，请检查权限设置"
  const ProblemMessage: string := "麦克风遇到问题，请联系我们处理"

  /** The lower-cased error names a missing device or a refused permission. */
  predicate NamesPermissionProblem(lowered: string) {
    Contains(lowered, "notfound") || Contains(lowered, "device not found") ||
    Contains(lowered, "notallowed") || Contains(lowered, "permission")
  }

  /** The microphone message for the hook's error: none without an error,
      otherwise one of exactly two messages, chosen case-insensitively. */
  function MicrophoneMessage(error: string): (m: Option<string>)
    ensures m.None? <==> error == ""
    ensures m.Some? ==> m.value == PermissionMessage || m.value == ProblemMessage
    ensures m == Some(PermissionMessage) <==> error != "" && NamesPermissionProblem(ToLower(error))
  {
    if error == "" then None
    else
      var errorMessage := ToLower(error);
      if Contains(errorMessage, "notfound") || Contains(errorMessage, "device not found") then
        Some(PermissionMessage)
      else if Contains(errorMessage, "notallowed") || Contains(errorMessage, "permission") then
        Some(PermissionMessage)
      else if Contains(errorMessage, "notreadable") || Contains(errorMessage, "in use") then
        Some(ProblemMessage)
      else
        Some(ProblemMessage)
  }

  /** The classification does not depend on letter case. */
  lemma MicrophoneMessageIgnoresCase(error: string)
    ensures MicrophoneMessage(ToLower(error)) == MicrophoneMessage(error)
  {
    ToLowerIdempotent(error);
    assert |ToLower(error)| == |error|;
  }

  /** A browser permission error's text selects the permission message. */
  lemma PermissionErrorSelectsPermissionMessage(before: string, after: string)
    ensures MicrophoneMessage(before + "Permission" + after) == Some(PermissionMessage)
  {
    var e := before + "Permission" + after;
    var l := ToLower(e);
    assert l == ToLower(before) + "permission" + ToLower(after);
    ContainsMiddle(ToLower(before), "permission", ToLower(after));
  }

  /** The client reports a refused microphone with its own fixed text,
      which names no device or permission problem: the page then shows the
      general problem message. A socket failure does the same. */
  lemma ClientFailuresSelectProblemMessage()
    ensures MicrophoneMessage(MicrophoneFailure) == Some(ProblemMessage)
    ensures MicrophoneMessage(SocketFailure) == Some(ProblemMessage)
  {
    MicrophoneFailureNamesNoCause();
    SocketFailureNamesNoCause();
  }

  lemma MicrophoneFailureNamesNoCause()
    ensures !NamesPermissionProblem(ToLower(MicrophoneFailure))
  {
    MicrophoneFailureLacksNotFound();
    MicrophoneFailureLacksNotAllowed();
    MicrophoneFailureLacksPermission();
  }

  /** "notfound" and "device not found" need a u, which the text lacks. */
  lemma MicrophoneFailureLacksNotFound()
    ensures !Contains(ToLower(MicrophoneFailure), "notfound")
    ensures !Contains(ToLower(MicrophoneFailure), "device not found")
  {
    assert 'u' !in MicrophoneFailure && 'U' !in MicrophoneFailure;
    AbsentLetterExcludes(MicrophoneFailure, "notfound", 5);
    AbsentLetterExcludes(MicrophoneFailure, "device not found", 13);
  }

  /** "notallowed" needs a w, which the text lacks. */
  lemma MicrophoneFailureLacksNotAllowed()
    ensures !Contains(ToLower(MicrophoneFailure), "notallowed")
  {
    assert 'w' !in MicrophoneFailure && 'W' !in MicrophoneFailure;
    AbsentLetterExcludes(MicrophoneFailure, "notallowed", 7);
  }

  lemma MicrophoneFailureLacksPermission()
    ensures !Contains(ToLower(MicrophoneFailure), "permission")
  {
    var p := MicrophoneFailure[..18];
    assert p == "Failed to access m";
    LowerKeepsAbsent(p, 'p');
    LowerPrefix(MicrophoneFailure, 18);
    LateStartExcludes(ToLower(MicrophoneFailure), "permission", 18);
  }

  lemma SocketFailureNamesNoCause()
    ensures !NamesPermissionProblem(ToLower(SocketFailure))
  {
    SocketFailureLacksNotFound();
    SocketFailureLacksNotAllowed();
    SocketFailureLacksPermission();
  }

  /** "notfound" and "device not found" need a u, which the text lacks. */
  lemma SocketFailureLacksNotFound()
    ensures !Contains(ToLower(SocketFailure), "notfound")
    ensures !Contains(ToLower(SocketFailure), "device not found")
  {
    assert 'u' !in SocketFailure && 'U' !in SocketFailure;
    AbsentLetterExcludes(SocketFailure, "notfound", 5);
    AbsentLetterExcludes(SocketFailure, "device not found", 13);
  }

  /** "notallowed" needs an n, which the text lacks. */
  lemma SocketFailureLacksNotAllowed()
    ensures !Contains(ToLower(SocketFailure), "notallowed")
  {
    assert 'n' !in SocketFailure && 'N' !in SocketFailure;
    AbsentLetterExcludes(SocketFailure, "notallowed", 0);
  }

  /** "permission" needs a p, which the text lacks. */
  lemma SocketFailureLacksPermission()
    ensures !Contains(ToLower(SocketFailure), "permission")
  {
    assert 'p' !in SocketFailure && 'P' !in SocketFailure;
    AbsentLetterExcludes(SocketFailure, "permission", 0);
  }

  /** The page's states. */
  datatype PageState = StartPage | CountdownPage | RecordingPage | AnimatingPage | MainPage

  /** `useState(3)` */
  const CountdownStart: int := 3

  /** One run of the countdown effect: a second passes from a positive
      count; at 0 the recording page opens and the count resets. */
  function Tick(page: PageState, count: int): (r: (PageState, int))
    // the only page change is from the countdown to recording, once the count is spent
    ensures r.0 != page ==> page == CountdownPage && r.0 == RecordingPage && count <= 0
    ensures 0 <= count <= CountdownStart ==> 0 <= r.1 <= CountdownStart
  {
    if page != CountdownPage then (page, count)
    else if count > 0 then (CountdownPage, count - 1)
    else (RecordingPage, CountdownStart)
  }

  /** `k` runs of the countdown effect. */
  function Ticks(page: PageState, count: int, k: nat): (r: (PageState, int))
    // any number of runs ends on the page it started on or on the recording page,
    // with the count still between 0 and 3
    ensures r.0 == page || r.0 == RecordingPage
    ensures 0 <= count <= CountdownStart ==> 0 <= r.1 <= CountdownStart
    decreases k
  {
    if k == 0 then (page, count)
    else
      var (p, c) := Tick(page, count);
      Ticks(p, c, k - 1)
  }

  /** From `n`, the count steps down by one per run, and run n + 1 opens
      the recording page with the count back at 3. */
  lemma {:induction false} CountdownRunsDown(n: nat, k: nat)
    requires k <= n + 1
    ensures k <= n ==> Ticks(CountdownPage, n, k) == (CountdownPage, n - k)
    ensures k == n + 1 ==> Ticks(CountdownPage, n, k) == (RecordingPage, CountdownStart)
    decreases k
  {
    if k > 0 {
      if n > 0 {
        CountdownRunsDown(n - 1, k - 1);
      }
    }
  }

  /** Outside the countdown the effect does nothing. */
  lemma {:induction false} TicksIdleOutsideCountdown(page: PageState, count: int, k: nat)
    requires page != CountdownPage
    ensures Ticks(page, count, k) == (page, count)
    decreases k
  {
    if k > 0 {
      TicksIdleOutsideCountdown(page, count, k - 1);
    }
  }

  /** The text copied: the transcript when the original is shown, otherwise
      the reply without its tags. */
  function CopyText(showOriginal: bool, transcript: string, textLLM: string): (t: string)
    ensures showOriginal ==> t == transcript
    ensures !showOriginal && |textLLM| >= 21 ==> t == textLLM[10..|textLLM| - 11]
    ensures !showOriginal && |textLLM| <= 21 ==> t == ""
  {
    if showOriginal then transcript else ReplyText(textLLM)
  }

  /** The main text shown: each text falls back to a placeholder when empty. */
  function DisplayText(showOriginal: bool, transcript: string, isLoading: bool, asrStatus: Status,
                       textLLM: string, completion: string): (d: string)
    ensures d != ""
    ensures showOriginal && transcript != "" ==> d == transcript
    ensures !showOriginal && (!isLoading || asrStatus == Recording) && ReplyText(textLLM) != "" ==>
      d == ReplyText(textLLM)
    ensures !showOriginal && isLoading && asrStatus != Recording && StreamedReplyText(completion) != "" ==>
      d == StreamedReplyText(completion)
  {
    if showOriginal then
      (if transcript != "" then transcript else "暂无录音内容")
    else if !isLoading || asrStatus == Recording then
      (var t := ReplyText(textLLM); if t != "" then t else "点击下方按钮开始录音...")
    else
      (var t := StreamedReplyText(completion); if t != "" then t else "正在处理...")
  }

  /** What is copied is what is shown, unless a placeholder is shown or the
      reply is still streaming in. */
  lemma CopyIsWhatIsShown(showOriginal: bool, transcript: string, isLoading: bool, asrStatus: Status,
                          textLLM: string, completion: string)
    requires showOriginal ==> transcript != ""
    requires !showOriginal ==> ReplyText(textLLM) != "" && (!isLoading || asrStatus == Recording)
    ensures CopyText(showOriginal, transcript, textLLM) ==
            DisplayText(showOriginal, transcript, isLoading, asrStatus, textLLM, completion)
  {
  }

  /** The next prompt carries the previous reply's text, unwrapped, as the old text. */
  lemma NextPromptCarriesReply(open: string, body: string, close: string, transcript: string)
    requires |open| == 10 && |close| == 11
    ensures GenerateUserInput(ReplyText(open + body + close), transcript) == GenerateUserInput(body, transcript)
  {
    ReplyTextUnwraps(open, body, close);
  }

  class Home {
    const asr: AsrHook
    var pageState: PageState
    var countdown: int
    var isFirstRecording: bool
    var showOriginal: bool
    /** The last complete reply of the model, tags included. */
    var textLLM: string
    /** The prompt the form submits. */
    var input: string
    var shouldSubmit: bool
    var microphoneError: Option<string>
    /** The prompts submitted to the model, oldest first. */
    var submitted: seq<string>

    constructor (deployEnv: Option<string>)
      ensures fresh(asr) && asr.client == null && asr.View() == InitialView
      ensures pageState == StartPage && countdown == 3 && isFirstRecording && !showOriginal
      ensures textLLM == "" && input == "" && !shouldSubmit && microphoneError == None && submitted == []
    {
      asr := new AsrHook(deployEnv);
      pageState, countdown, isFirstRecording, showOriginal := StartPage, CountdownStart, true, false;
      textLLM, input, shouldSubmit, microphoneError, submitted := "", "", false, None, [];
    }

    /** The effect on `error`: a microphone message, or none. */
    method OnErrorChange()
      modifies this`microphoneError
      ensures microphoneError == MicrophoneMessage(asr.View().error)
    {
      microphoneError := MicrophoneMessage(asr.View().error);
    }

    /** `handleFirstClick` and `handleRestartRecording`: start the countdown. */
    method BeginCountdown()
      modifies this`pageState
      ensures pageState == CountdownPage
    {
      pageState := CountdownPage;
    }

    /** The countdown effect: at 0 it opens the recording page, starts
        recording and resets the count. */
    method CountdownEffect()
      modifies this`pageState, this`countdown, asr
      ensures (pageState, countdown) == Tick(old(pageState), old(countdown))
      ensures old(pageState) == CountdownPage && old(countdown) <= 0 ==>
        fresh(asr.client) && asr.Valid() && asr.View() == HookView("", Recording, "")
      ensures !(old(pageState) == CountdownPage && old(countdown) <= 0) ==> unchanged(asr)
    {
      if pageState == CountdownPage {
        if countdown > 0 {
          countdown := countdown - 1;
        } else {
          pageState := RecordingPage;
          asr.StartRecording();
          countdown := CountdownStart;
        }
      }
    }

    /** The loading effect: once the model answers a recording, the first
        recording plays the animation and later ones go straight to main. */
    method LoadingEffect(isLoading: bool)
      modifies this`pageState
      ensures isLoading && old(pageState) == RecordingPage && isFirstRecording ==> pageState == AnimatingPage
      ensures isLoading && old(pageState) == RecordingPage && !isFirstRecording ==> pageState == MainPage
      ensures !(isLoading && old(pageState) == RecordingPage) ==> pageState == old(pageState)
    {
      if isLoading && pageState == RecordingPage {
        if isFirstRecording {
          pageState := AnimatingPage;
        } else {
          pageState := MainPage;
        }
      }
    }

    /** The animation's timer: main page, and no further first recording. */
    method AnimationDone()
      modifies this`pageState, this`isFirstRecording
      ensures pageState == MainPage && !isFirstRecording
    {
      pageState := MainPage;
      isFirstRecording := false;
    }

    /** The stop button: stop the recognizer and ask for a submission. */
    method StopClick()
      modifies this`shouldSubmit, asr.client
      ensures shouldSubmit
      ensures asr.View() == old(asr.View())
      ensures asr.client != null ==> asr.client.events == old(asr.client.events) + old(asr.client.TeardownEvents())
    {
      asr.StopRecording();
      shouldSubmit := true;
    }

    /** The submit effect: once the recognizer is idle, the prompt is the
        previous reply's text with the transcript. */
    method SubmitEffect()
      modifies this`input
      ensures shouldSubmit && asr.View().asrStatus == Idle ==>
        input == GenerateUserInput(ReplyText(textLLM), asr.View().transcript)
      ensures !(shouldSubmit && asr.View().asrStatus == Idle) ==> input == old(input)
    {
      if shouldSubmit && asr.View().asrStatus == Idle {
        input := GenerateUserInput(ReplyText(textLLM), asr.View().transcript);
      }
    }

    /** The submit effect's timer: the form (on the recording page) is
        submitted, and the request is cleared. */
    method SubmitTimer()
      modifies this`submitted, this`shouldSubmit
      ensures pageState == RecordingPage ==> submitted == old(submitted) + [input]
      ensures pageState != RecordingPage ==> submitted == old(submitted)
      ensures !shouldSubmit
    {
      if pageState == RecordingPage {
        submitted := submitted + [input];
      }
      shouldSubmit := false;
    }

    /** The completion's `onFinish`: the full reply is kept. */
    method OnFinish(completion: string)
      modifies this`textLLM
      ensures textLLM == completion
    {
      textLLM := completion;
    }

    /** The eye and close buttons: show or hide the original transcript. */
    method ShowOriginal(show: bool)
      modifies this`showOriginal
      ensures showOriginal == show
    {
      showOriginal := show;
    }
  }
}
