/**
 * The useASR hook: it chooses the recognition endpoint from the deploy
 * environment, owns the current ASRClient, and shows what the client's
 * callbacks last reported (transcript, status, error).
 */
module UseAsr {
  import opened Wrappers
  import opened AsrClientModel

  const ProductionUrl: string := "wss://xiedao.website/proxy/rtasr"
  const TestUrl: string := "wss://test.xiedao.website/proxy/rtasr"
  const LocalUrl: string := "ws://localhost:8080/proxy/rtasr"

  /** The endpoint for the deploy environment (None when the variable is not set). */
  function SelectEndpoint(deployEnv: Option<string>): (url: string)
    ensures deployEnv == Some("production") ==> url == ProductionUrl
    ensures deployEnv == Some("test") ==> url == TestUrl
    ensures deployEnv != Some("production") && deployEnv != Some("test") ==> url == LocalUrl
    // only the two deployed environments use a TLS socket
    ensures (url[..6] == "wss://") <==> deployEnv in {Some("production"), Some("test")}
  {
    if deployEnv == Some("production") then ProductionUrl
    else if deployEnv == Some("test") then TestUrl
    else
      assert LocalUrl[..6] != "wss://" by { assert LocalUrl[2] == ':'; }
      LocalUrl
  }

  /** What the hook returns to its component. */
  datatype HookView = HookView(transcript: string, asrStatus: Status, error: string)

  /** `useState("")`, `useState('idle')`, `useState('')` */
  const InitialView: HookView := HookView("", Idle, "")

  /** One client effect as the hook sees it: the three callbacks are the
      state setters; every other effect leaves the view alone. */
  function Apply(v: HookView, e: Event): HookView {
    match e
    case Transcribed(t) => v.(transcript := t)
    case StatusChanged(s) => v.(asrStatus := s)
    case ErrorReported(m) => v.(error := m)
    case _ => v
  }

  predicate IsCallback(e: Event) {
    e.Transcribed? || e.StatusChanged? || e.ErrorReported?
  }

  /** The view after the client's effects `evs`, in order. */
  function Absorb(v: HookView, evs: seq<Event>): HookView
    decreases |evs|
  {
    if evs == [] then v else Apply(Absorb(v, evs[..|evs| - 1]), evs[|evs| - 1])
  }

  lemma {:induction false} AbsorbAppend(v: HookView, a: seq<Event>, b: seq<Event>)
    ensures Absorb(v, a + b) == Absorb(Absorb(v, a), b)
    decreases |b|
  {
    if b == [] {
      assert a + b == a;
    } else {
      assert (a + b)[..|a + b| - 1] == a + b[..|b| - 1];
      AbsorbAppend(v, a, b[..|b| - 1]);
    }
  }

  /** Sends, closes and releases are invisible to the component. */
  lemma {:induction false} NonCallbacksInvisible(v: HookView, evs: seq<Event>)
    requires forall i :: 0 <= i < |evs| ==> !IsCallback(evs[i])
    ensures Absorb(v, evs) == v
    decreases |evs|
  {
    if evs != [] {
      NonCallbacksInvisible(v, evs[..|evs| - 1]);
    }
  }

  /** The transcript shown is the text of the last transcription callback. */
  lemma {:induction false} LatestTranscriptShown(v: HookView, evs: seq<Event>, k: nat)
    requires k < |evs| && evs[k].Transcribed?
    requires forall j :: k < j < |evs| ==> !evs[j].Transcribed?
    ensures Absorb(v, evs).transcript == evs[k].text
    decreases |evs|
  {
    if k < |evs| - 1 {
      LatestTranscriptShown(v, evs[..|evs| - 1], k);
    }
  }

  /** The status shown is the one of the last status callback. */
  lemma {:induction false} LatestStatusShown(v: HookView, evs: seq<Event>, k: nat)
    requires k < |evs| && evs[k].StatusChanged?
    requires forall j :: k < j < |evs| ==> !evs[j].StatusChanged?
    ensures Absorb(v, evs).asrStatus == evs[k].status
    decreases |evs|
  {
    if k < |evs| - 1 {
      LatestStatusShown(v, evs[..|evs| - 1], k);
    }
  }

  /** The teardown of `stop` holds no callback: stopping changes nothing
      the component sees until the idle timer fires. */
  lemma TeardownInvisible(v: HookView, c: AsrClient)
    ensures Absorb(v, c.TeardownEvents()) == v
  {
    NonCallbacksInvisible(v, c.TeardownEvents());
  }

  class AsrHook {
    const deployEnv: Option<string>
    /** The view as it stood when the current client was created. */
    var base: HookView
    /** `asrClientRef.current` */
    var client: AsrClient?

    /** The current view: the callbacks of the current client applied to `base`. */
    function View(): HookView
      reads this, client
    {
      if client == null then base else Absorb(base, client.events)
    }

    /** A client, once there is one, talks to the environment's endpoint. */
    predicate Valid()
      reads this, client
    {
      client != null ==> client.wsUrl == SelectEndpoint(deployEnv)
    }

    constructor (env: Option<string>)
      ensures deployEnv == env && client == null && Valid()
      ensures View() == InitialView
    {
      deployEnv := env;
      base := InitialView;
      client := null;
    }

    /** `startRecording`: clear the transcript, replace the client by a fresh
        one on the selected endpoint, and start it. The component then sees
        an empty transcript, no error and the recording status. */
    method StartRecording()
      modifies this
      ensures Valid() && fresh(client)
      ensures View() == HookView("", Recording, "")
      ensures client.finalResult == [] && client.events == [ErrorReported(""), StatusChanged(Recording)]
      ensures client.ws.None? && client.mediaStream.None?
      ensures base == old(View()).(transcript := "")
    {
      base := View().(transcript := "");
      var c := new AsrClient(SelectEndpoint(deployEnv));
      c.Start();
      client := c;
      ghost var started := [ErrorReported(""), StatusChanged(Recording)];
      assert c.events == [] + started;
      assert started[..1] == [ErrorReported("")] && started[..1][..0] == [];
      assert Absorb(base, started) == HookView("", Recording, "");
      assert client.events == started;
    }

    /** `stopRecording`: `asrClientRef.current?.stop()`. With no client it does
        nothing; otherwise the client tears down, and the component sees no
        change until the idle timer fires. */
    method StopRecording()
      modifies client
      ensures old(client) == null ==> View() == old(View())
      ensures client != null ==>
        client.events == old(client.events) + old(client.TeardownEvents()) &&
        client.ws == old(client.SocketAfterStop()) &&
        client.processor == None && client.audioContext == None && client.mediaStream == None
      ensures View() == old(View())
    {
      if client != null {
        ghost var before := client.events;
        ghost var teardown := client.TeardownEvents();
        TeardownInvisible(Absorb(base, before), client);
        client.Stop();
        AbsorbAppend(base, before, teardown);
      }
    }
  }
}
