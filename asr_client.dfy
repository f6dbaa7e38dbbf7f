/**
 * ASRClient: the streaming speech-recognition client. The browser objects it
 * holds (WebSocket, AudioContext, ScriptProcessorNode, MediaStream) are
 * option-valued fields over abstract handles; everything the client does to
 * the outside world (callbacks, sends, closes, releases) is appended to the
 * event log `events`. Each browser callback is a method.
 */
module AsrClientModel {
  import opened Wrappers
  import opened JsValues
  import opened Recognition
  import opened Audio
  import opened Protocol

  datatype Status = Idle | Recording

  datatype ReadyState = Connecting | Open | Closing | Closed

  /** A WebSocket: the URL it was opened on and its readyState. */
  datatype Socket = Socket(url: string, readyState: ReadyState)

  /** An opaque platform object: a MediaStream, an AudioContext or a ScriptProcessorNode. */
  datatype Handle = Handle(id: nat)

  /** One effect of the client on the outside world. */
  datatype Event =
    | ErrorReported(message: string)  // options.onError
    | StatusChanged(status: Status)   // options.onStatusChange
    | Transcribed(text: string)       // options.onTranscription
    | FrameSent(pcm: seq<int>)        // ws.send(pcm.buffer)
    | TextSent(text: string)          // ws.send(text)
    | CloseRequested                  // ws.close()
    | ProcessorDisconnected           // processor.disconnect()
    | AudioContextClosed              // audioContext.close()
    | TracksStopped                   // mediaStream.getTracks().forEach(t => t.stop())
    | IdleTimerArmed                  // setTimeout(() => onStatusChange('idle'), 100)

  /** JSON.stringify({ end: true }) */
  const EndMarker: string := "{\"end\":true}"
  const MicrophoneFailure: string := "Failed to access microphone"
  const SocketFailure: string := "WebSocket error"

  /** The sends for a run of chunks, one binary frame per chunk, in order. */
  function FrameEvents(chunks: seq<seq<real>>): seq<Event> {
    seq(|chunks|, i requires 0 <= i < |chunks| => FrameSent(EncodeFrame(chunks[i])))
  }

  /** Every frame the framer sends holds exactly 1280 PCM samples. */
  lemma SentFramesAreFull(s: seq<real>)
    ensures forall i :: 0 <= i < |FrameEvents(Frames(s))| ==>
      FrameEvents(Frames(s))[i].FrameSent? && |FrameEvents(Frames(s))[i].pcm| == FrameSize
  {
    FramesShape(s);
  }

  /** Framing a stream one sample further: the sends for the longer stream
      are those for the shorter one followed by those of the step. */
  lemma FrameStep(s: seq<real>, x: real)
    ensures Leftover(s + [x]) == Leftover(Leftover(s) + [x])
    ensures FrameEvents(Frames(s + [x])) == FrameEvents(Frames(s)) + FrameEvents(Frames(Leftover(s) + [x]))
  {
    FramesAppend(s, [x]);
    FrameEventsAppend(Frames(s), Frames(Leftover(s) + [x]));
  }

  lemma FrameEventsAppend(a: seq<seq<real>>, b: seq<seq<real>>)
    ensures FrameEvents(a + b) == FrameEvents(a) + FrameEvents(b)
  {
    assert |FrameEvents(a + b)| == |FrameEvents(a) + FrameEvents(b)|;
    forall i | 0 <= i < |a + b|
      ensures FrameEvents(a + b)[i] == (FrameEvents(a) + FrameEvents(b))[i]
    {
      if i >= |a| {
        assert (a + b)[i] == b[i - |a|];
      }
    }
  }

  class AsrClient {
    const wsUrl: string
    var ws: Option<Socket>
    var audioContext: Option<Handle>
    var processor: Option<Handle>
    var mediaStream: Option<Handle>
    var finalResult: seq<string>
    /** The sample buffer of the current audio-processing callback. */
    var buffer: seq<real>
    /** What the client has done to the outside world, oldest first. */
    var events: seq<Event>
    /** The samples taken in since audio processing last started. */
    ghost var accepted: seq<real>
    /** The chunks sent as frames since then. */
    ghost var framed: seq<seq<real>>

    /** The sent chunks are the full frames of the accepted samples, and the
        buffer is what is left of them (always under 1280 samples). */
    ghost predicate Valid()
      reads this
    {
      framed == Frames(accepted) && buffer == Leftover(accepted)
    }

    predicate SocketOpen()
      reads this
    {
      ws.Some? && ws.value.readyState == Open
    }

    /** The effects of `stop` on the current state. */
    function TeardownEvents(): (r: seq<Event>)
      reads this
      // the end marker is sent exactly when the socket is open
      ensures TextSent(EndMarker) in r <==> SocketOpen()
      // the last effect arms the idle timer; no callback runs before it
      ensures |r| > 0 && r[|r| - 1] == IdleTimerArmed
      ensures forall i :: 0 <= i < |r| ==>
        !r[i].Transcribed? && !r[i].StatusChanged? && !r[i].ErrorReported?
    {
      (if SocketOpen() then [TextSent(EndMarker), CloseRequested] else [])
      + (if processor.Some? then [ProcessorDisconnected] else [])
      + (if audioContext.Some? then [AudioContextClosed] else [])
      + (if mediaStream.Some? then [TracksStopped] else [])
      + [IdleTimerArmed]
    }

    /** The socket after `stop`: ws.close() moves an open socket to Closing;
        the field itself is not cleared. */
    function SocketAfterStop(): (r: Option<Socket>)
      reads this
      ensures r.None? <==> ws.None?
      // the same socket, no longer open
      ensures r.Some? ==> r.value.url == ws.value.url && r.value.readyState != Open
      ensures !SocketOpen() ==> r == ws
    {
      if SocketOpen() then Some(ws.value.(readyState := Closing)) else ws
    }

    constructor (url: string)
      ensures Valid() && wsUrl == url
      ensures ws == None && audioContext == None && processor == None && mediaStream == None
      ensures finalResult == [] && buffer == [] && events == []
    {
      wsUrl := url;
      ws, audioContext, processor, mediaStream := None, None, None, None;
      finalResult, buffer, events := [], [], [];
      accepted, framed := [], [];
    }

    /** `handleRecognitionData`: decodes one `data` text, appends a final
        result to `finalResult`, and returns the live text ("" after a final
        result, the raw text when it cannot be decoded). */
    method HandleRecognitionData(message: string, parse: JsonParser) returns (realTime: string)
      modifies this`finalResult
      ensures (finalResult, realTime) == Recognize(old(finalResult), ParseFragment(message, parse), message)
    {
      var parsed := parse(message);
      if parsed.None? {
        return message;
      }
      var messageObj := parsed.value;
      var tempResult := CollectPieces(messageObj);
      if tempResult.None? {
        return message;
      }
      var st := Or(Prop(Or(Prop(messageObj, "cn"), Obj(map[])), "st"), Obj(map[]));
      assert StatusObject(messageObj) == Some(st);
      JoinEmptyIsConcat(tempResult.value);
      if Prop(st, "type") == Str("1") {
        return Join("", tempResult.value);
      } else if Prop(st, "type") == Str("0") {
        finalResult := finalResult + [Join("", tempResult.value)];
        return "";
      }
      return Join("", tempResult.value);
    }

    /** The synchronous part of `start`, up to the microphone request. */
    method Start()
      modifies this
      ensures finalResult == []
      ensures events == old(events) + [ErrorReported(""), StatusChanged(Recording)]
      ensures ws == old(ws) && audioContext == old(audioContext)
      ensures processor == old(processor) && mediaStream == old(mediaStream)
      ensures buffer == old(buffer) && accepted == old(accepted) && framed == old(framed)
    {
      finalResult := [];
      events := events + [ErrorReported(""), StatusChanged(Recording)];
    }

    /** The rest of `start`, once getUserMedia settles: a refused microphone
        reports the failure and idles without opening a socket; a granted one
        is kept and a socket to the endpoint is opened. */
    method OnMicrophone(stream: Option<Handle>)
      modifies this
      ensures stream.None? ==>
        events == old(events) + [ErrorReported(MicrophoneFailure), StatusChanged(Idle)] &&
        ws == old(ws) && mediaStream == old(mediaStream)
      ensures stream.Some? ==>
        events == old(events) && mediaStream == stream && ws == Some(Socket(wsUrl, Connecting))
      ensures audioContext == old(audioContext) && processor == old(processor)
      ensures finalResult == old(finalResult) && buffer == old(buffer)
      ensures accepted == old(accepted) && framed == old(framed)
    {
      if stream.None? {
        events := events + [ErrorReported(MicrophoneFailure), StatusChanged(Idle)];
      } else {
        mediaStream := stream;
        ws := Some(Socket(wsUrl, Connecting));
      }
    }

    /** `ws.onopen`, i.e. `startAudioProcessing`: the socket is open, the audio
        graph exists, and framing starts from an empty buffer. */
    method OnOpen(context: Handle, node: Handle)
      requires ws.Some? && ws.value.readyState == Connecting
      modifies this
      ensures Valid()
      ensures ws == Some(old(ws.value).(readyState := Open))
      ensures audioContext == Some(context) && processor == Some(node)
      ensures buffer == [] && accepted == [] && framed == []
      ensures mediaStream == old(mediaStream) && finalResult == old(finalResult) && events == old(events)
    {
      ws := Some(ws.value.(readyState := Open));
      audioContext := Some(context);
      processor := Some(node);
      buffer, accepted, framed := [], [], [];
    }

    /** `processor.onaudioprocess` on one input block. Nothing happens unless
        the socket is open; otherwise every full frame of the buffer followed
        by the block is sent in order and the rest stays buffered. */
    method OnAudioProcess(input: seq<real>)
      requires Valid()
      modifies this`buffer, this`accepted, this`framed, this`events
      ensures Valid()
      ensures !old(SocketOpen()) ==>
        buffer == old(buffer) && events == old(events) && accepted == old(accepted) && framed == old(framed)
      ensures old(SocketOpen()) ==>
        accepted == old(accepted) + input &&
        buffer == Leftover(old(buffer) + input) &&
        events == old(events) + FrameEvents(Frames(old(buffer) + input))
    {
      if SocketOpen() {
        FrameInput(input);
      }
    }

    /** The framing loop over one input block: `for (i ...) { buffer.push(input[i]); ... }`. */
    method FrameInput(input: seq<real>)
      requires Valid()
      modifies this`buffer, this`accepted, this`framed, this`events
      ensures Valid()
      ensures accepted == old(accepted) + input
      ensures buffer == Leftover(old(buffer) + input)
      ensures events == old(events) + FrameEvents(Frames(old(buffer) + input))
    {
      var i := 0;
      while i < |input|
        invariant 0 <= i <= |input|
        invariant Valid()
        invariant accepted == old(accepted) + input[..i]
        invariant buffer == Leftover(old(buffer) + input[..i])
        invariant events == old(events) + FrameEvents(Frames(old(buffer) + input[..i]))
      {
        assert old(buffer) + input[..i + 1] == (old(buffer) + input[..i]) + [input[i]];
        FrameStep(old(buffer) + input[..i], input[i]);
        PushSample(input[i]);
        i := i + 1;
      }
      assert input[..|input|] == input;
    }

    /** One iteration of the framing loop: `buffer.push(x)`, and when the
        buffer reaches a full chunk, splice it off and send it as one frame. */
    method PushSample(x: real)
      requires Valid()
      modifies this`buffer, this`accepted, this`framed, this`events
      ensures Valid()
      ensures accepted == old(accepted) + [x]
      ensures buffer == Leftover(old(buffer) + [x])
      ensures events == old(events) + FrameEvents(Frames(old(buffer) + [x]))
    {
      FramesAppend(accepted, [x]);
      FramesPushOne(buffer, x);
      buffer := buffer + [x];
      accepted := accepted + [x];
      if |buffer| >= FrameSize {
        var chunk := buffer[..FrameSize];
        buffer := buffer[FrameSize..];
        var pcm := EncodeChunk(chunk);
        events := events + [FrameSent(pcm)];
        framed := framed + [chunk];
        assert FrameEvents([chunk]) == [FrameSent(pcm)];
      } else {
        assert FrameEvents([]) == [];
      }
    }

    /** `stop`: the end marker and a close only on an open socket; the audio
        graph and the microphone are released and cleared on every call. */
    method Stop()
      modifies this
      ensures events == old(events) + old(TeardownEvents())
      ensures ws == old(SocketAfterStop())
      ensures processor == None && audioContext == None && mediaStream == None
      ensures finalResult == old(finalResult) && buffer == old(buffer)
      ensures accepted == old(accepted) && framed == old(framed)
    {
      var closing: seq<Event> := [];
      if ws.Some? && ws.value.readyState == Open {
        closing := [TextSent(EndMarker), CloseRequested];
        ws := Some(ws.value.(readyState := Closing));
      }
      var disconnected: seq<Event> := [];
      if processor.Some? {
        disconnected := [ProcessorDisconnected];
      }
      processor := None;
      var contextClosed: seq<Event> := [];
      if audioContext.Some? {
        contextClosed := [AudioContextClosed];
      }
      audioContext := None;
      var tracksStopped: seq<Event> := [];
      if mediaStream.Some? {
        tracksStopped := [TracksStopped];
      }
      mediaStream := None;
      events := events + (closing + disconnected + contextClosed + tracksStopped + [IdleTimerArmed]);
    }

    /** `ws.onmessage` on one text. */
    method OnMessage(text: string, parse: JsonParser)
      modifies this
      ensures React(text, parse) == Ignored ==> unchanged(this)
      ensures React(text, parse).Failed? ==>
        events == old(events) + [ErrorReported(React(text, parse).error)] + old(TeardownEvents()) &&
        ws == old(SocketAfterStop()) &&
        processor == None && audioContext == None && mediaStream == None &&
        finalResult == old(finalResult)
      ensures React(text, parse).Data? ==>
        var raw := React(text, parse).text;
        var outcome := ParseFragment(raw, parse);
        finalResult == Recognize(old(finalResult), outcome, raw).0 &&
        events == old(events) + [Transcribed(Published(old(finalResult), outcome, raw))] &&
        ws == old(ws) && processor == old(processor) &&
        audioContext == old(audioContext) && mediaStream == old(mediaStream)
      ensures buffer == old(buffer) && accepted == old(accepted) && framed == old(framed)
    {
      var parsed := parse(text);
      if parsed.None? || Nullish(parsed.value) {
        // invalid JSON, or `data.code` throws on null: logged and dropped
        return;
      }
      var data := parsed.value;
      if Prop(data, "code") != Str("0") {
        var errMsg := ErrorMessage(Prop(data, "code"), Prop(data, "desc"));
        if errMsg.None? {
          // the template literal throws: logged and dropped
          return;
        }
        events := events + [ErrorReported(errMsg.value)];
        Stop();
        return;
      }
      if Truthy(Prop(data, "data")) {
        var message := ToStr(Prop(data, "data"));
        if message.None? {
          // JSON.parse(data.data) and the publishing `+` both throw: dropped
          return;
        }
        var realTime := HandleRecognitionData(message.value, parse);
        events := events + [Transcribed(Concat(finalResult) + realTime)];
      }
    }

    /** `ws.onerror`: report, then the same teardown as `stop`. */
    method OnSocketError()
      modifies this
      ensures events == old(events) + [ErrorReported(SocketFailure)] + old(TeardownEvents())
      ensures ws == old(SocketAfterStop())
      ensures processor == None && audioContext == None && mediaStream == None
      ensures finalResult == old(finalResult) && buffer == old(buffer)
      ensures accepted == old(accepted) && framed == old(framed)
    {
      events := events + [ErrorReported(SocketFailure)];
      Stop();
    }

    /** `ws.onclose`: the socket is closed and the status goes idle. */
    method OnSocketClose()
      requires ws.Some?
      modifies this
      ensures ws == Some(old(ws.value).(readyState := Closed))
      ensures events == old(events) + [StatusChanged(Idle)]
      ensures audioContext == old(audioContext) && processor == old(processor) && mediaStream == old(mediaStream)
      ensures finalResult == old(finalResult) && buffer == old(buffer)
      ensures accepted == old(accepted) && framed == old(framed)
    {
      ws := Some(ws.value.(readyState := Closed));
      events := events + [StatusChanged(Idle)];
    }

    /** The 100 ms timer armed by `stop` fires. */
    method OnIdleTimer()
      modifies this`events
      ensures events == old(events) + [StatusChanged(Idle)]
    {
      events := events + [StatusChanged(Idle)];
    }
  }
}
