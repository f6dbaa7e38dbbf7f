# xiedao frontend: speech capture, recognition and prompt assembly in Dafny

This project models the logic of the xiedao writing frontend that turns
speech into text and text into prompts for a language model:

- **ASRClient** (`src/libs/asr-client.ts`), the streaming speech-recognition
  client. The model covers:
  - its session bookkeeping: the socket, the audio context, the processor
    node and the microphone stream, as option-valued fields;
  - the audio framer: samples are buffered and sent as frames of exactly
    1280 signed 16-bit PCM values;
  - the inbound protocol: status codes, error strings, and decoding of the
    nested `cn.st.rt[].ws[].cw[].w` result structure;
  - the transcript it publishes: the final results so far, followed by the
    live text.

  Everything the client does to the outside world is appended, in order, to
  an event log: callbacks, sends, closes, releases and the idle timer.
  Each browser callback (`getUserMedia` settling, `onopen`,
  `onaudioprocess`, `onmessage`, `onerror`, `onclose`, the timer) is a
  method that the environment calls.
- **userReducer** (`src/contexts/user-context.tsx`): the signed-in user as a
  reducer over `LOGIN`, `LOGOUT` and `SET_LOADING`.
- **useASR** (`src/hooks/use-asr.ts`): the endpoint chosen from the deploy
  environment, and the fresh client created on every start. The hook's view
  (transcript, status, error) is the current client's callbacks applied in
  order.
- **The home page** (`src/app/page.tsx`) and **the writing page**
  (`src/components/creation.tsx`). The model covers:
  - the microphone-error classifier;
  - the 3-2-1 countdown;
  - the first-recording animation;
  - the submit flow;
  - the copy and display texts;
  - the prompt builders and the slices that strip the model's reply tags;
  - the old/new text swap of the writing page.

Pure code is modelled as functions and lemmas. Code that changes state is
modelled as classes with `modifies` clauses. The loops of the source
(the three nested collecting loops, the framing loop, the PCM loop) are
`while` and `for` loops, each proved against a specification function.

`JSON.parse` is a parameter of type `string -> Option<Value>`, where `None`
means it throws. `Value` covers the JSON values plus `undefined`. The model
states the JavaScript semantics the code relies on:

- truthiness and `||`;
- property reads throwing on `null` and `undefined`;
- `for...of` over arrays and strings, and throwing on anything else;
- `String()` and `join`, which decide what text a piece contributes.

Behaviour as written, which the model keeps and proves:

- Unparseable recognition data is returned and published as live text. So
  is the JSON text `null`, whose `.cn` read throws
  (`Recognition.NullResultIsRaw`), and so is a result holding a word that
  cannot be converted to text (`Recognition.UnprintableWordIsRaw`).
- An object parsed from JSON with its own `toString` key cannot be converted
  to text: the conversion throws a TypeError. A message whose `code` is such
  an object is dropped, with no error reported and no stop
  (`Protocol.UnprintableCodeIsDropped`). So is success `data` of that kind
  (`Protocol.UnprintableDataIsDropped`).
- Any result type other than `"0"` counts as live text, like `"1"`.
- Success is the string `"0"` only. A numeric `0` code is reported as an
  error (`Protocol.NumericZeroCodeFails`).
- `start` reports `recording` before the microphone is granted. A refused
  microphone reports the failure and goes back to `idle`.
- Neither `start` nor `stop` checks the current status. A second `start`
  overwrites the socket and stream fields.
- `stop` clears the audio fields but keeps the socket, which becomes
  Closing. A second `stop` therefore sends no second end marker.
- The client reports a refused microphone with a fixed text,
  `Failed to access microphone`. That text names no device or permission
  problem, so the home page shows the general "problem" message, never the
  "check permissions" one (`HomePage.ClientFailuresSelectProblemMessage`).
- The user prompt does not escape its tags. Different old-text/transcript
  pairs can give the same prompt (`Prompts.UserInputAmbiguous`).

## Model

| member | source | states |
|---|---|---|
| JsValues.Get | src/libs/asr-client.ts:26-27 | a property read throws exactly when the object is null or undefined |
| JsValues.Iterate | src/libs/asr-client.ts:30-32 | `for...of` visits an array's elements, or a string's characters one by one as one-character strings, and throws on every other value |
| JsValues.Truthy | src/libs/asr-client.ts:26-28 | null and undefined are falsy, every array and object (even empty) is truthy, and a string is truthy iff it is not empty |
| JsValues.Or | src/libs/asr-client.ts:26-28 | `a \|\| b` is one of its operands, is truthy iff either is, and is `b` when `a` is falsy |
| JsValues.Prop | src/libs/asr-client.ts:26-28 | an object's own key reads its value, and an absent key or a non-object reads as undefined |
| JsValues.ToStr | src/libs/asr-client.ts:38-46 | converting to text throws exactly for an object with its own "toString" key (any other object gives "[object Object]"); a string converts to itself; primitives always convert |
| JsValues.ArrayToStrThrows | src/libs/asr-client.ts:40 | an array converts unless one of its non-null elements does not |
| JsValues.JoinEmptyIsConcat | src/libs/asr-client.ts:40 | `join('')` is plain concatenation of the pieces |
| JsValues.ConcatAppend | src/libs/asr-client.ts:81 | the committed text distributes over appending final results |
| Recognition.StatusObject | src/libs/asr-client.ts:25-27 | reading `cn` throws exactly on a null or undefined message, and the `st` obtained is never null or undefined |
| Recognition.CandidatePiece | src/libs/asr-client.ts:33 | one piece per candidate, its `w` or "" as text. It throws exactly when the candidate is null or undefined or its word cannot be converted to text |
| Recognition.SlotPieces | src/libs/asr-client.ts:32-34 | a null or undefined slot throws, and a slot without a truthy `cw` contributes no pieces |
| Recognition.GroupPieces | src/libs/asr-client.ts:31-35 | a null or undefined group throws, and a group without a truthy `ws` contributes no pieces |
| Recognition.Pieces | src/libs/asr-client.ts:26-36 | a null or undefined message throws, and a status without a truthy `rt` gives no pieces |
| Recognition.ParseFragment | src/libs/asr-client.ts:24-50 | a `data` text decodes iff JSON.parse succeeds and the walk over it does not throw |
| Recognition.DecodeFragment | src/libs/asr-client.ts:25-46 | a parsed result decodes iff the walk does not throw. Its text is the concatenation of every piece pushed. It is final iff `st.type` is the string "0" |
| Recognition.CollectCandidates | src/libs/asr-client.ts:32-34 | the innermost loop pushes `w` or "" for each candidate, in order, or throws, as the specification walk does |
| Recognition.CollectSlots | src/libs/asr-client.ts:31-35 | the middle loop collects the candidates of every slot in order, or throws |
| Recognition.CollectPieces | src/libs/asr-client.ts:26-36 | the three nested loops give exactly the specification's pieces, None when a read or an iteration throws |
| Recognition.NoneExtends | src/libs/asr-client.ts:30-36 | a throw part-way through a loop aborts the whole walk |
| Recognition.MapConcatTotal | src/libs/asr-client.ts:30-36 | a walk in which nothing throws yields the in-order concatenation of its parts' texts |
| Recognition.SlotDecodes | src/libs/asr-client.ts:32-34 | a well-formed slot yields its candidates' words, with "" for a missing word |
| Recognition.GroupDecodes | src/libs/asr-client.ts:31-35 | a well-formed group yields its slots' texts in order |
| Recognition.WellFormedDecodes | src/libs/asr-client.ts:26-46 | encoding any well-formed result and decoding it gives the in-order concatenation of all its words: final for type "0", live text for every other type |
| Recognition.MissingStructureIsEmpty | src/libs/asr-client.ts:26-28 | a message without a truthy `cn`, a `cn` without `st`, or an `st` without `rt` gives the empty text, final or live as `st.type` says |
| Recognition.EmptyPartAddsNothing | src/libs/asr-client.ts:30-36 | an element with no pieces leaves the walk over the elements around it unchanged |
| Recognition.MissingListAddsNothing | src/libs/asr-client.ts:31-32 | a group without `ws`, or a slot without `cw`, adds nothing to the words of its neighbours |
| Recognition.UnprintableWordThrows | src/libs/asr-client.ts:33-40 | a word that cannot be converted to text makes its whole slot throw, wherever it stands |
| Recognition.UnprintableWordIsRaw | src/libs/asr-client.ts:24-50 | a result whose word is an object with its own "toString" is handed back raw |
| Recognition.NullResultIsRaw | src/libs/asr-client.ts:25-50 | the JSON text "null" parses, but its read throws, so it is handed back raw |
| Protocol.ErrorMessage | src/libs/asr-client.ts:74 | the error text can be built iff both the code and the description (or "Unknown") convert to text, which string parts always do |
| Protocol.React | src/libs/asr-client.ts:69-86 | unparseable text and null are dropped. A non-null message fails iff its code is not the string "0" and the error text can be built, and then carries that text. Data is taken iff the code is "0" and `data` is truthy and converts to text, and then carries that text |
| Protocol.UnprintableCodeIsDropped | src/libs/asr-client.ts:73-85 | a code that is an object with its own "toString" makes the message be dropped, with no error and no stop |
| Protocol.UnprintableDataIsDropped | src/libs/asr-client.ts:79-85 | success data that is an object with its own "toString" is dropped |
| Protocol.ErrorMessageNames | src/libs/asr-client.ts:74 | the error text names the code and the description, with "Unknown" for a missing or empty description |
| Protocol.BadAudioIsReported | src/libs/asr-client.ts:73-77 | code "1" with description "bad audio" yields "Error Code: 1, Message: bad audio" |
| Protocol.NumericZeroCodeFails | src/libs/asr-client.ts:73 | a numeric code 0 is not the success sentinel and is reported with "Unknown" |
| Protocol.Recognize | src/libs/asr-client.ts:38-46 | the final results only grow, by at most one element, at the end. They grow exactly on a final result, by its text, leaving no live text. Otherwise the live text is the fragment's, or the raw text when decoding failed |
| Protocol.Published | src/libs/asr-client.ts:81 | the published text always starts with the text committed before: nothing final is retracted |
| Protocol.RunFragments | src/libs/asr-client.ts:79-81 | after a run of results the earlier final results are kept, and at most one is added per result |
| Protocol.PublishedIsCommittedPlusLive | src/libs/asr-client.ts:79-81 | the published text is the committed text followed by the live text (raw on a decode failure, "" after a final result) |
| Protocol.PartialsThenFinal | src/libs/asr-client.ts:38-46 | live results replace each other rather than accumulate, and a final result after any number of them commits exactly its own text |
| Protocol.EndToEndTranscript | src/libs/asr-client.ts:38-46 | live "你", live "你好", then final "你好吗" publishes "你好吗" with one final result |
| Audio.Clamp | src/libs/asr-client.ts:120 | the sample is clamped into [-1, 1] and kept unchanged when already inside |
| Audio.Scale | src/libs/asr-client.ts:121 | a clamped sample scales into [-32768, 32767], and the result is negative exactly when the sample is |
| Audio.Truncate | src/libs/asr-client.ts:121 | the store into the integer array truncates toward zero |
| Audio.ToInt16 | src/libs/asr-client.ts:118 | an Int16Array store always yields a value in [-32768, 32767], and keeps every integer already in that range |
| Audio.Pcm16 | src/libs/asr-client.ts:118-121 | the value stored for any sample lies in [-32768, 32767] |
| Audio.Pcm16Range | src/libs/asr-client.ts:120-121 | the stored value never wraps, lies in [-32768, 32767] and has the clamped sample's sign (a tiny negative sample truncates to 0) |
| Audio.Pcm16Endpoints | src/libs/asr-client.ts:120-121 | 1 and -1, and anything beyond them, map to 32767 and -32768, and 0 maps to 0 |
| Audio.EncodeFrame | src/libs/asr-client.ts:118-122 | a chunk encodes to as many PCM values as it has samples, all in the 16-bit range |
| Audio.EncodeChunk | src/libs/asr-client.ts:118-122 | the PCM loop fills the array with exactly the encoded frame |
| Audio.Frames | src/libs/asr-client.ts:114-117 | no frame is sent before 1280 samples have arrived, and the first frame is the first 1280 samples |
| Audio.FramesShape | src/libs/asr-client.ts:114-117 | a stream yields one frame per full 1280 samples, each exactly 1280 samples |
| Audio.Leftover | src/libs/asr-client.ts:116-117 | what stays buffered is always under 1280 samples |
| Audio.FramesReassemble | src/libs/asr-client.ts:114-117 | the frames followed by the leftover are exactly the input: nothing lost, duplicated or reordered |
| Audio.FramesAppend | src/libs/asr-client.ts:114-117 | framing a longer stream is framing the first part, then its leftover followed by the rest |
| Audio.FramesPushOne | src/libs/asr-client.ts:115-117 | one more sample completes a frame exactly when the buffer reaches 1280 |
| Audio.ChunkingIrrelevant | src/libs/asr-client.ts:110-126 | however the samples are split into callback blocks, the frames sent and the buffer kept are those of the whole stream |
| Audio.ExampleTwoFramesKept | src/libs/asr-client.ts:110-126 | 3200 samples in any chunking send two frames and keep 640 samples |
| AsrClientModel.SentFramesAreFull | src/libs/asr-client.ts:116-123 | every frame sent holds exactly 1280 PCM values |
| AsrClientModel.FrameStep | src/libs/asr-client.ts:114-124 | the sends for one more sample are the earlier sends followed by the step's own |
| AsrClientModel.FrameEventsAppend | src/libs/asr-client.ts:123 | sends for consecutive chunk runs concatenate |
| AsrClientModel.AsrClient.TeardownEvents | src/libs/asr-client.ts:132-145 | the teardown sends the end marker exactly when the socket is open, runs no callback, and ends by arming the idle timer |
| AsrClientModel.AsrClient.SocketAfterStop | src/libs/asr-client.ts:133-136 | after a stop the socket field holds the same socket, no longer open, and an unopened socket is left as it was |
| AsrClientModel.AsrClient.constructor | src/libs/asr-client.ts:11-20 | no socket, audio context, processor or stream, no final results, nothing done yet |
| AsrClientModel.AsrClient.HandleRecognitionData | src/libs/asr-client.ts:22-51 | type "0" appends the text to the final results and returns "". Any other type returns the text and leaves the results alone. A parse or read failure returns the raw message |
| AsrClientModel.AsrClient.Start | src/libs/asr-client.ts:53-57 | the final results are reset, a cleared error and the recording status are reported, and nothing else changes before the microphone answers |
| AsrClientModel.AsrClient.OnMicrophone | src/libs/asr-client.ts:60-98 | a refused microphone reports "Failed to access microphone" and idle, and opens no socket. A granted one keeps the stream and opens a socket on the client's URL |
| AsrClientModel.AsrClient.OnOpen | src/libs/asr-client.ts:101-108 | the socket is open, the audio graph is kept, and framing starts from an empty buffer |
| AsrClientModel.AsrClient.OnAudioProcess | src/libs/asr-client.ts:110-126 | nothing is sent or buffered unless the socket is open. Otherwise the full frames of the buffer plus the block are sent in order and the rest stays buffered. The framing invariant is kept |
| AsrClientModel.AsrClient.FrameInput | src/libs/asr-client.ts:114-125 | the sample loop sends exactly the frames of the old buffer plus the input and keeps exactly its leftover |
| AsrClientModel.AsrClient.PushSample | src/libs/asr-client.ts:115-124 | push one sample. On reaching 1280, splice the chunk off the front and send it as one encoded frame |
| AsrClientModel.AsrClient.Stop | src/libs/asr-client.ts:132-145 | the end marker and a close only on an open socket. Processor, audio context and stream are released when present and cleared on every call. The idle timer is armed |
| AsrClientModel.AsrClient.OnMessage | src/libs/asr-client.ts:69-86 | dropped messages, including those whose code or data cannot be converted to text, change nothing. An error is reported with its built text and followed by a full stop. Data updates the final results and publishes the committed text plus the live text |
| AsrClientModel.AsrClient.OnSocketError | src/libs/asr-client.ts:88-91 | "WebSocket error" is reported, then the same teardown as `stop` |
| AsrClientModel.AsrClient.OnSocketClose | src/libs/asr-client.ts:93 | the socket is closed and idle is reported |
| AsrClientModel.AsrClient.OnIdleTimer | src/libs/asr-client.ts:144 | the delayed idle status is reported |
| UserContext.Initial | src/contexts/user-context.tsx:24-28 | no user, not authenticated, loading |
| UserContext.Reduce | src/contexts/user-context.tsx:33-57 | LOGIN: authenticated, done loading, the user is the email or "". LOGOUT: the same signed-out, loaded state from any state. SET_LOADING changes only the loading flag. Any other type is the identity. No action gives a user name without authentication |
| UserContext.ReachableSignedOutIsAnonymous | src/contexts/user-context.tsx:33-57 | every sequence of actions keeps "not authenticated implies no user" |
| UserContext.FromInitialSignedOutIsAnonymous | src/contexts/user-context.tsx:24-57 | every state reachable from the initial state is anonymous when signed out |
| UserContext.LogoutIdempotent | src/contexts/user-context.tsx:42-48 | logging out twice is logging out once, and a login followed by a logout ends where a logout does |
| UserContext.ReduceAllAppend | src/contexts/user-context.tsx:33-57 | dispatching action sequences one after another composes |
| UserContext.LastLogoutSignsOut | src/contexts/user-context.tsx:35-56 | after the last LOGOUT, with no LOGIN after it, the user is signed out and anonymous |
| UserContext.NoLoginKeepsSignedOut | src/contexts/user-context.tsx:42-55 | without a LOGIN a signed-out anonymous state stays so |
| UseAsr.SelectEndpoint | src/hooks/use-asr.ts:15-24 | production selects wss://xiedao.website/proxy/rtasr and test selects wss://test.xiedao.website/proxy/rtasr. Anything else, or no value, selects ws://localhost:8080/proxy/rtasr. The socket uses TLS iff the environment is production or test |
| UseAsr.AbsorbAppend | src/hooks/use-asr.ts:26-31 | the view after two runs of callbacks is the second run applied to the view after the first |
| UseAsr.NonCallbacksInvisible | src/hooks/use-asr.ts:26-31 | sends, closes and releases do not change what the component sees |
| UseAsr.LatestTranscriptShown | src/hooks/use-asr.ts:28 | the transcript shown is the text of the last transcription callback |
| UseAsr.LatestStatusShown | src/hooks/use-asr.ts:29 | the status shown is the one of the last status callback |
| UseAsr.TeardownInvisible | src/hooks/use-asr.ts:35-37 | the teardown of a stop holds no callback |
| UseAsr.AsrHook.constructor | src/hooks/use-asr.ts:6-9 | empty transcript, idle, no error and no client |
| UseAsr.AsrHook.StartRecording | src/hooks/use-asr.ts:11-33 | a fresh client on the environment's endpoint replaces the old one and is started. The component then sees an empty transcript, no error and the recording status |
| UseAsr.AsrHook.StopRecording | src/hooks/use-asr.ts:35-37 | without a client nothing happens. Otherwise the client tears down, and the view is unchanged until the idle timer fires |
| JsStrings.ResolveIndex | src/app/page.tsx:187 | a negative slice index counts from the end. Both indices are clamped to the string |
| JsStrings.Slice | src/app/page.tsx:187 | `slice(a, -b)` drops a characters at the front and b at the back, or gives "" when fewer than a + b remain |
| JsStrings.SliceFrom | src/app/page.tsx:477 | `slice(a)` drops a characters at the front, or gives "" |
| JsStrings.SliceUnwraps | src/app/page.tsx:187 | slicing off a wrapper of known lengths gives back exactly what it wrapped |
| JsStrings.SliceFromUnwraps | src/app/page.tsx:477 | dropping a known prefix gives back the rest |
| JsStrings.SliceFromPrefix | src/app/page.tsx:477 | the slice of a growing string only grows at its end |
| JsStrings.ToLower | src/app/page.tsx:40 | lower-casing keeps the length and lowers each ASCII letter |
| JsStrings.ToLowerIdempotent | src/app/page.tsx:40 | lowering twice is lowering once |
| JsStrings.ContainsMiddle | src/app/page.tsx:42-45 | `includes` finds any text placed inside a string |
| JsStrings.MissingCharExcludes | src/app/page.tsx:42-45 | a string lacking one of the keyword's characters does not include it |
| JsStrings.LateStartExcludes | src/app/page.tsx:42-45 | a keyword whose first character appears only too late to fit is not included |
| JsStrings.AbsentLetterExcludes | src/app/page.tsx:42-45 | a letter missing in both cases keeps the keyword out of the lowered text |
| Prompts.GenerateUserInput | src/app/page.tsx:509-511 | the user prompt (built the same way at src/components/creation.tsx:222-224) is 38 characters of tags longer than its two parts |
| Prompts.UserInputFields | src/app/page.tsx:509-511 | the old text and the transcript can be cut back out of the prompt by position, between `<old_text>` and `</speech>` |
| Prompts.UserInputInjective | src/app/page.tsx:509-511 | given the old text's length, the prompt determines both parts |
| Prompts.UserInputAmbiguous | src/app/page.tsx:509-511 | without that length it does not: a transcript containing the tags gives the same prompt as a longer old text |
| Prompts.GenerateTranslateInput | src/components/creation.tsx:226-228 | the translation prompt is 48 characters of tags longer than its parts |
| Prompts.TranslateInputFields | src/components/creation.tsx:226-228 | the text and the target language can be cut back out of the prompt |
| Prompts.ReplyText | src/app/page.tsx:106 | `slice(10, -11)` drops the first 10 and the last 11 characters, or gives "" for replies of at most 21 characters |
| Prompts.ReplyTextUnwraps | src/app/page.tsx:187 | a reply wrapped in a 10- and an 11-character tag gives back exactly its body |
| Prompts.StreamedReplyText | src/app/page.tsx:477 | `slice(10)` drops the opening tag of the reply streamed so far |
| Prompts.StreamedReplyGrows | src/components/creation.tsx:93 | the streamed text only grows, and at completion it is the final text followed by the closing tag |
| HomePage.MicrophoneMessage | src/app/page.tsx:36-53 | no message iff there is no error; otherwise one of exactly two messages; the permission message iff the lowered error mentions notfound, device not found, notallowed or permission |
| HomePage.MicrophoneMessageIgnoresCase | src/app/page.tsx:40 | the classification does not depend on letter case |
| HomePage.PermissionErrorSelectsPermissionMessage | src/app/page.tsx:44-45 | any error text containing "Permission" selects the permission message |
| HomePage.ClientFailuresSelectProblemMessage | src/app/page.tsx:46-50 | the client's "Failed to access microphone" and "WebSocket error" both select the problem message |
| HomePage.MicrophoneFailureNamesNoCause | src/app/page.tsx:42-45 | the client's microphone failure text contains none of the four keywords |
| HomePage.SocketFailureNamesNoCause | src/app/page.tsx:42-45 | the client's socket failure text contains none of the four keywords |
| HomePage.MicrophoneFailureLacksNotFound | src/app/page.tsx:42 | the lowered microphone failure text contains neither "notfound" nor "device not found" |
| HomePage.MicrophoneFailureLacksNotAllowed | src/app/page.tsx:44 | the lowered microphone failure text does not contain "notallowed" |
| HomePage.MicrophoneFailureLacksPermission | src/app/page.tsx:44 | the lowered microphone failure text does not contain "permission" |
| HomePage.SocketFailureLacksNotFound | src/app/page.tsx:42 | the lowered socket failure text contains neither "notfound" nor "device not found" |
| HomePage.SocketFailureLacksNotAllowed | src/app/page.tsx:44 | the lowered socket failure text does not contain "notallowed" |
| HomePage.SocketFailureLacksPermission | src/app/page.tsx:44 | the lowered socket failure text does not contain "permission" |
| HomePage.Tick | src/app/page.tsx:57-70 | the only page change is from the countdown to recording once the count is spent, and the count stays between 0 and 3 |
| HomePage.Ticks | src/app/page.tsx:57-70 | any number of runs ends on the starting page or on the recording page, with the count still between 0 and 3 |
| HomePage.CountdownRunsDown | src/app/page.tsx:57-70 | from n the count steps down by exactly one per run, and run n + 1 opens the recording page with the count back at 3 |
| HomePage.TicksIdleOutsideCountdown | src/app/page.tsx:58 | outside the countdown page the effect never changes page or count |
| HomePage.CopyText | src/app/page.tsx:187 | the transcript when the original is shown, otherwise the reply without its first 10 and last 11 characters |
| HomePage.DisplayText | src/app/page.tsx:473-479 | the main text is never empty. It shows the transcript, the kept reply or the streamed reply as the state says, with a placeholder for an empty one |
| HomePage.CopyIsWhatIsShown | src/app/page.tsx:473-479 | what is copied is what is shown unless a placeholder is shown or a reply is streaming |
| HomePage.NextPromptCarriesReply | src/app/page.tsx:106 | the next prompt carries the previous reply's body, unwrapped, as its old text |
| HomePage.Home.constructor | src/app/page.tsx:8-26 | the start page, count 3, first recording ahead, reply and prompt empty, no microphone message |
| HomePage.Home.OnErrorChange | src/app/page.tsx:36-54 | the microphone message is the classification of the hook's current error |
| HomePage.Home.BeginCountdown | src/app/page.tsx:178-184 | both the first click and a restart go to the countdown |
| HomePage.Home.CountdownEffect | src/app/page.tsx:57-71 | one countdown step. At 0 recording starts on a fresh client and the view shows recording; otherwise the hook is untouched |
| HomePage.Home.LoadingEffect | src/app/page.tsx:88-102 | once the model answers a recording, the first one goes to the animation and later ones straight to main; nothing changes otherwise |
| HomePage.Home.AnimationDone | src/app/page.tsx:93-96 | the animation ends on the main page, and no recording counts as first any more |
| HomePage.Home.StopClick | src/app/page.tsx:318-321 | the recognizer tears down, a submission is requested, and the view is unchanged |
| HomePage.Home.SubmitEffect | src/app/page.tsx:104-106 | once idle with a submission requested, the prompt is the previous reply's text with the transcript |
| HomePage.Home.SubmitTimer | src/app/page.tsx:107-112 | the form on the recording page submits the prompt, and the request is cleared |
| HomePage.Home.OnFinish | src/app/page.tsx:13-15 | the complete reply is kept, tags included |
| HomePage.Home.ShowOriginal | src/app/page.tsx:436-460 | the eye and close buttons show or hide the transcript |
| Creation.ShownText | src/components/creation.tsx:90-100 | the kept new text, except while a reply streams in after recording, when the reply so far without its opening tag is shown |
| Creation.ShownTextSettles | src/components/creation.tsx:65-100 | once the reply is complete and kept, the shown text is the streamed one without the closing tag |
| Creation.TranslatedText | src/components/creation.tsx:162 | the first 11 characters dropped while loading, and the last 12 as well once done |
| Creation.TranslatedTextUnwraps | src/components/creation.tsx:162 | a complete translation in an 11- and a 12-character tag shows exactly its body, and the streaming text only grows |
| Creation.LanguageName | src/components/creation.tsx:175-176 | the two languages have distinct option values, english and spanish |
| Creation.Writer.constructor | src/components/creation.tsx:24-58 | both texts, the kept old text and the prompt start empty, with no client |
| Creation.Writer.MicClick | src/components/creation.tsx:137-141 | recording starts, the current new text is kept as the old one, and the new text is cleared |
| Creation.Writer.SendClick | src/components/creation.tsx:126-130 | recording stops, and the prompt is the kept old text with the transcript |
| Creation.Writer.OnFinish | src/components/creation.tsx:65-70 | the old text is the kept one and the new text is the reply without its tags |
| Creation.Exporter.constructor | src/components/creation.tsx:156-157 | English is selected and the prompt is empty |
| Creation.Exporter.SelectLanguage | src/components/creation.tsx:169-173 | the selected language is kept |
| Creation.Exporter.TranslateClick | src/components/creation.tsx:183-190 | the prompt is the current new text with the selected language's name |

## Left out

- Browser I/O is abstract. A socket is its URL and a ready state; sends and closes are events. The microphone stream, audio context and processor are opaque handles. What `getUserMedia` returns is a parameter.
- Binary socket messages (`Blob.text()`) are outside the model: a message arrives as its text.
- `console.error` logging is not modelled.
- `JSON.parse` is a parameter. A number is kept as the text `String()` gives for it; the code only tests numbers for truthiness or prints them.
- A `new WebSocket` that throws (a malformed URL) would land in the microphone catch. The model lets the socket be created.
- The three callbacks are always supplied, as the hook supplies them, so `?.` on a missing callback is not modelled.
- Asynchrony: `start` is split at its `await` into `Start` and `OnMicrophone`. Socket, audio and timer callbacks are methods the environment calls in any order. A socket replaced by a second `start` no longer delivers events to the model.
- The 100 ms idle timer of `stop` is an `IdleTimerArmed` event followed by a separate `OnIdleTimer` call.
- Audio.Pcm16Range: samples and products are reals. IEEE rounding of the products and NaN samples are not modelled. The PCM buffer's little-endian byte layout is not modelled either.
- JsStrings.Slice: strings are sequences of code points, while JavaScript indexes UTF-16 code units. The two agree on text in the Basic Multilingual Plane, which includes the Chinese texts the app shows.
- JsStrings.ToLower lowers ASCII letters only. Full Unicode lowering can also produce ASCII letters: U+0130 becomes "i" followed by the combining dot U+0307. That dot always follows the "i", and no keyword has U+0307 after an "i", so no keyword can match across it. The other non-ASCII characters that lower to ASCII, such as the Kelvin sign (to "k"), give letters no keyword contains. So the classification agrees with full Unicode lowering.
- UserContext.Reduce: the `SET_LOADING` payload is a boolean. A missing payload would make `loading` undefined in the source.
- The reducer's `localStorage` synchronisation and the provider and consumer hooks are React plumbing and not modelled.
- The hook shows only the current client's callbacks. A replaced client's late callbacks (its pending idle timer, its socket closing) also reach the hook's setters in the source. The `setTranscript` the hook returns is not modelled; neither page uses it.
- React scheduling: a state update takes effect at once, and an effect is a method called when its dependencies change.
- Handlers are modelled without the rendering conditions that enable them. For example, the microphone button is disabled while loading, and the restart button appears only on the main page.
- Creation.Writer.SendClick, Creation.Exporter.TranslateClick: both buttons are submit buttons of a form, so the same click also submits the form through the completion library's `handleSubmit`. That submission is not modelled. Which `input` value it reads depends on whether React renders the click's `setInput` before the submit event, and that is not modelled either. The model records only the prompt the click sets.
- HomePage.Home.SubmitTimer: `formRef.current` is taken to be set exactly while the recording page (the one holding the form) is rendered.
- The completion hook (`useCompletion`) is a foreign library. Its `isLoading` and `completion` are parameters, and a form submission is recorded in `Home.submitted`.
- Not modelled on the home page: audio-level monitoring, the low-volume warning, the `Math.hypot` pinch gestures, the clipboard write and the copied flag. They are floating point, timers and platform I/O. The text chosen for copying is modelled.
- Not modelled on the writing page: the display toggles (`isDisplayLLM`, `displayStatus`), the error logging effect and the clipboard button. They are rendering only.
- src/app/test/page.tsx duplicates the home page's prompt builder and is not part of this model.
