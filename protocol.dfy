/**
 * The inbound side of the recognition protocol: what ASRClient's `onmessage`
 * handler makes of one message `{code, desc?, data?}`, and how a decoded
 * result updates the list of final results and the published transcript.
 */
module Protocol {
  import opened Wrappers
  import opened JsValues
  import opened Recognition

  /** What one inbound text leads to. */
  datatype Reaction =
    | Ignored               // invalid JSON, a throwing read or conversion, or success without `data`
    | Failed(error: string) // a non-success `code`
    | Data(text: string)    // success with `data`: String(data) goes to the recognition decoder

  /** `Error Code: ${data.code}, Message: ${data.desc || 'Unknown'}`; None when
      the template literal throws converting either part. */
  function ErrorMessage(code: Value, desc: Value): (m: Option<string>)
    ensures m.Some? <==> ToStr(code).Some? && ToStr(Or(desc, Str("Unknown"))).Some?
    // string codes and descriptions always convert
    ensures code.Str? && (desc.Str? || !Truthy(desc)) ==> m.Some?
  {
    match ToStr(code)
    case None => None
    case Some(c) =>
      match ToStr(Or(desc, Str("Unknown")))
      case None => None
      case Some(d) => Some("Error Code: " + c + ", Message: " + d)
  }

  /** The error text names the code and the description, "Unknown" standing
      in for a missing or empty description. */
  lemma ErrorMessageNames(code: string, desc: Value)
    ensures desc.Str? && desc.s != "" ==>
      ErrorMessage(Str(code), desc) == Some("Error Code: " + code + ", Message: " + desc.s)
    ensures !Truthy(desc) ==> ErrorMessage(Str(code), desc) == Some("Error Code: " + code + ", Message: Unknown")
  {
    if !Truthy(desc) {
      assert Or(desc, Str("Unknown")) == Str("Unknown");
      assert "Error Code: " + code + ", Message: " + "Unknown" == "Error Code: " + code + ", Message: Unknown";
    }
  }

  /** The `onmessage` handler's decision for one text. */
  function React(text: string, parse: JsonParser): (r: Reaction)
    // unparseable text, and the text "null" (reading `.code` throws), are dropped
    ensures parse(text).None? ==> r == Ignored
    ensures parse(text) == Some(Null) ==> r == Ignored
    // the success sentinel is exactly the string "0"; an error text that
    // cannot be built is caught and logged only
    ensures r.Failed? <==> parse(text).Some? && !Nullish(parse(text).value) &&
                           Prop(parse(text).value, "code") != Str("0") &&
                           ErrorMessage(Prop(parse(text).value, "code"), Prop(parse(text).value, "desc")).Some?
    ensures r.Failed? ==>
      Some(r.error) == ErrorMessage(Prop(parse(text).value, "code"), Prop(parse(text).value, "desc"))
    // `JSON.parse(data.data)` first converts `data` to a string
    ensures r.Data? <==> parse(text).Some? && Prop(parse(text).value, "code") == Str("0") &&
                         Truthy(Prop(parse(text).value, "data")) &&
                         ToStr(Prop(parse(text).value, "data")).Some?
    ensures r.Data? ==> Some(r.text) == ToStr(Prop(parse(text).value, "data"))
  {
    match parse(text)
    case None => Ignored
    case Some(msg) =>
      if Nullish(msg) then Ignored
      else if Prop(msg, "code") != Str("0") then
        match ErrorMessage(Prop(msg, "code"), Prop(msg, "desc"))
        case None => Ignored
        case Some(e) => Failed(e)
      else if Truthy(Prop(msg, "data")) then
        // when `data` does not convert, the raw `data` handed back by
        // handleRecognitionData makes the `+` that publishes it throw too
        match ToStr(Prop(msg, "data"))
        case None => Ignored
        case Some(t) => Data(t)
      else Ignored
  }

  /** A rejected request: code "1" with description "bad audio". */
  lemma BadAudioIsReported(text: string, parse: JsonParser)
    requires parse(text) == Some(Obj(map["code" := Str("1"), "desc" := Str("bad audio")]))
    ensures React(text, parse) == Failed("Error Code: " + "1" + ", Message: " + "bad audio")
  {
    ErrorMessageNames("1", Str("bad audio"));
  }

  /** A code that cannot be converted to text (an object with its own
      "toString" key) makes the error text throw: the message is dropped,
      with no error reported and no stop. */
  lemma UnprintableCodeIsDropped(text: string, parse: JsonParser, props: map<string, Value>)
    requires parse(text) == Some(Obj(map["code" := Obj(props)])) && "toString" in props
    ensures React(text, parse) == Ignored
  {
    assert Prop(parse(text).value, "code") == Obj(props);
  }

  /** Success data that cannot be converted to text is dropped. */
  lemma UnprintableDataIsDropped(text: string, parse: JsonParser, props: map<string, Value>)
    requires parse(text) == Some(Obj(map["code" := Str("0"), "data" := Obj(props)])) && "toString" in props
    ensures React(text, parse) == Ignored
  {
    assert Prop(parse(text).value, "data") == Obj(props);
  }

  /** A numeric code 0 is not the success sentinel "0". */
  lemma NumericZeroCodeFails(text: string, parse: JsonParser)
    requires parse(text) == Some(Obj(map["code" := Num("0")]))
    ensures React(text, parse) == Failed("Error Code: " + "0" + ", Message: " + "Unknown")
  {
    assert Prop(parse(text).value, "code") == Num("0") != Str("0");
  }

  // ---------------------------------------------------------------------
  // Transcript assembly

  /** handleRecognitionData on a decoded outcome: the new `finalResult` and
      the returned live text. A failed decode returns the raw text. */
  function Recognize(finals: seq<string>, outcome: Option<Fragment>, raw: string): (r: (seq<string>, string))
    // the final results only grow, by at most one element, at the end ...
    ensures |finals| <= |r.0| <= |finals| + 1 && r.0[..|finals|] == finals
    // ... and they grow exactly on a final result, which leaves no live text
    ensures (r.0 != finals) <==> outcome.Some? && outcome.value.Final?
    ensures outcome.Some? && outcome.value.Final? ==> r == (finals + [outcome.value.text], "")
    // otherwise the live text is the fragment's, or the raw text when decoding failed
    ensures outcome.None? ==> r.1 == raw
    ensures outcome.Some? && outcome.value.Partial? ==> r.1 == outcome.value.text
  {
    match outcome
    case None => (finals, raw)
    case Some(Final(t)) => (finals + [t], "")
    case Some(Partial(t)) => (finals, t)
  }

  /** `finalResult.join('') + realTime` after one decoded result. */
  function Published(finals: seq<string>, outcome: Option<Fragment>, raw: string): (p: string)
    // text committed before is never retracted
    ensures Concat(finals) <= p
  {
    var (fs, live) := Recognize(finals, outcome, raw);
    assert fs == finals + fs[|finals|..];
    ConcatAppend(finals, fs[|finals|..]);
    Concat(fs) + live
  }

  /** Whatever is published is the committed text followed by live text; a
      final result commits its text and leaves no live text. */
  lemma {:induction false} PublishedIsCommittedPlusLive(finals: seq<string>, outcome: Option<Fragment>, raw: string)
    ensures outcome == None ==> Published(finals, outcome, raw) == Concat(finals) + raw
    ensures outcome.Some? && outcome.value.Partial? ==>
      Published(finals, outcome, raw) == Concat(finals) + outcome.value.text
    ensures outcome.Some? && outcome.value.Final? ==>
      Published(finals, outcome, raw) == Concat(finals) + outcome.value.text
  {
    if outcome.Some? && outcome.value.Final? {
      ConcatAppend(finals, [outcome.value.text]);
      ConcatSingle(outcome.value.text);
    }
  }

  /** The final results and the last published text after a run of fragments. */
  function RunFragments(finals: seq<string>, frags: seq<Fragment>, last: string): (r: (seq<string>, string))
    // the run keeps the earlier final results and adds at most one per fragment
    ensures |finals| <= |r.0| <= |finals| + |frags| && r.0[..|finals|] == finals
    decreases |frags|
  {
    if frags == [] then (finals, last)
    else
      var outcome := Some(frags[0]);
      RunFragments(Recognize(finals, outcome, "").0, frags[1..], Published(finals, outcome, ""))
  }

  function AllPartial(texts: seq<string>): (fs: seq<Fragment>)
    ensures |fs| == |texts|
  {
    seq(|texts|, i requires 0 <= i < |texts| => Partial(texts[i]))
  }

  /** Live results replace each other rather than accumulate; a final result
      after any number of them commits exactly its own text. */
  lemma {:induction false} PartialsThenFinal(finals: seq<string>, partials: seq<string>, t: string, last: string)
    ensures RunFragments(finals, AllPartial(partials) + [Final(t)], last) == (finals + [t], Concat(finals) + t)
    ensures partials != [] ==>
      RunFragments(finals, AllPartial(partials), last) == (finals, Concat(finals) + partials[|partials| - 1])
    decreases |partials|
  {
    var frags := AllPartial(partials) + [Final(t)];
    if partials == [] {
      assert frags == [Final(t)];
      PublishedIsCommittedPlusLive(finals, Some(Final(t)), "");
    } else {
      assert frags[0] == Partial(partials[0]);
      assert frags[1..] == AllPartial(partials[1..]) + [Final(t)];
      PartialsThenFinal(finals, partials[1..], t, Published(finals, Some(Partial(partials[0])), ""));
      assert AllPartial(partials)[1..] == AllPartial(partials[1..]);
      if |partials| == 1 {
        PublishedIsCommittedPlusLive(finals, Some(Partial(partials[0])), "");
      }
    }
  }

  /** An end-to-end run: "你", "你好", then final "你好吗". */
  lemma EndToEndTranscript()
    ensures RunFragments([], [Partial("你"), Partial("你好"), Final("你好吗")], "") == (["你好吗"], "你好吗")
  {
    PartialsThenFinal([], ["你", "你好"], "你好吗", "");
    assert AllPartial(["你", "你好"]) + [Final("你好吗")] == [Partial("你"), Partial("你好"), Final("你好吗")];
    assert Concat([]) == "";
    assert [] + ["你好吗"] == ["你好吗"];
    assert "" + "你好吗" == "你好吗";
  }
}
