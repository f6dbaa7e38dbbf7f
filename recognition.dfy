/**
 * Decoding of one recognition result, the `data` string of a success message:
 * `{cn: {st: {type, rt: [{ws: [{cw: [{w}]}]}]}}}` (ASRClient.handleRecognitionData).
 * The words are collected group by group (`rt`), slot by slot (`ws`),
 * candidate by candidate (`cw`); result type "0" is a final result, any other
 * type is live text.
 */
module Recognition {
  import opened Wrappers
  import opened JsValues

  /** What a successfully decoded result contributes. */
  datatype Fragment = Final(text: string) | Partial(text: string)

  /** Applies `f` to each element in order and concatenates the pieces; None
      as soon as one application throws. */
  function MapConcat(xs: seq<Value>, f: Value -> Option<seq<string>>): Option<seq<string>>
    decreases |xs|
  {
    if xs == [] then Some([])
    else match MapConcat(xs[..|xs| - 1], f)
      case None => None
      case Some(init) =>
        match f(xs[|xs| - 1])
        case None => None
        case Some(p) => Some(init + p)
  }

  /** The elements visited by `for (const x of obj.key || [])`. */
  function Members(obj: Value, key: string): Option<seq<Value>> {
    match Get(obj, key)
    case None => None
    case Some(v) => Iterate(Or(v, Arr([])))
  }

  /** `tempResult.push(cwObj.w || '')` for one candidate, as text. The source
      turns the pieces into text in the `join('')` after the loops; a
      conversion that throws there lands in the same catch as a read that
      throws, so converting each piece as it is pushed has the same outcome. */
  function CandidatePiece(cwObj: Value): (r: Option<seq<string>>)
    ensures r.None? <==> Nullish(cwObj) || ToStr(Or(Prop(cwObj, "w"), Str(""))).None?
    ensures r.Some? ==> r.value == [ToStr(Or(Prop(cwObj, "w"), Str(""))).value]
    // a candidate without a (truthy) `w` contributes ""
    ensures !Nullish(cwObj) && !Truthy(Prop(cwObj, "w")) ==> r == Some([""])
  {
    match Get(cwObj, "w")
    case None => None
    case Some(w) =>
      match ToStr(Or(w, Str("")))
      case None => None
      case Some(t) => Some([t])
  }

  /** The pieces pushed for one word slot. */
  function SlotPieces(wsObj: Value): (r: Option<seq<string>>)
    ensures Nullish(wsObj) ==> r.None?
    // a slot without a (truthy) `cw` contributes nothing
    ensures !Nullish(wsObj) && !Truthy(Prop(wsObj, "cw")) ==> r == Some([])
  {
    match Members(wsObj, "cw")
    case None => None
    case Some(cws) => MapConcat(cws, CandidatePiece)
  }

  /** The pieces pushed for one result group. */
  function GroupPieces(rtObj: Value): (r: Option<seq<string>>)
    ensures Nullish(rtObj) ==> r.None?
    // a group without a (truthy) `ws` contributes nothing
    ensures !Nullish(rtObj) && !Truthy(Prop(rtObj, "ws")) ==> r == Some([])
  {
    match Members(rtObj, "ws")
    case None => None
    case Some(wss) => MapConcat(wss, SlotPieces)
  }

  /** `st` as the source reads it: `(messageObj.cn || {}).st || {}`;
      None when `messageObj.cn` throws. */
  function StatusObject(msg: Value): (r: Option<Value>)
    ensures r.None? <==> Nullish(msg)
    // `st` is never null or undefined, so reading `st.rt` and `st.type` never throws
    ensures r.Some? ==> !Nullish(r.value)
  {
    match Get(msg, "cn")
    case None => None
    case Some(cn) => Some(Or(Prop(Or(cn, Obj(map[])), "st"), Obj(map[])))
  }

  /** Everything `tempResult` receives, or None when the loops throw. */
  function Pieces(msg: Value): (r: Option<seq<string>>)
    ensures Nullish(msg) ==> r.None?
    // a status without a (truthy) `rt` gives no pieces
    ensures !Nullish(msg) && !Truthy(Prop(StatusObject(msg).value, "rt")) ==> r == Some([])
  {
    match StatusObject(msg)
    case None => None
    case Some(st) =>
      match Iterate(Or(Prop(st, "rt"), Arr([])))
      case None => None
      case Some(rts) => MapConcat(rts, GroupPieces)
  }

  /** The fragment a parsed result yields; None when reading it throws. */
  function DecodeFragment(msg: Value): (r: Option<Fragment>)
    ensures r.Some? <==> Pieces(msg).Some?
    ensures r.Some? ==> r.value.text == Concat(Pieces(msg).value)
    ensures r.Some? ==> (r.value.Final? <==> Prop(StatusObject(msg).value, "type") == Str("0"))
  {
    match StatusObject(msg)
    case None => None
    case Some(st) =>
      match Pieces(msg)
      case None => None
      case Some(ps) =>
        if Prop(st, "type") == Str("0") then Some(Final(Concat(ps))) else Some(Partial(Concat(ps)))
  }

  /** The fragment of a `data` text; None when JSON.parse or the reads throw,
      in which case the source hands back the text itself. */
  function ParseFragment(message: string, parse: JsonParser): (r: Option<Fragment>)
    ensures r.Some? <==> parse(message).Some? && Pieces(parse(message).value).Some?
  {
    match parse(message)
    case None => None
    case Some(msg) => DecodeFragment(msg)
  }

  // ---------------------------------------------------------------------
  // The collecting loops, as the source writes them

  /** The innermost loop: `for (const cwObj of wsObj.cw || [])`. */
  method CollectCandidates(cws: seq<Value>) returns (pieces: Option<seq<string>>)
    ensures pieces == MapConcat(cws, CandidatePiece)
  {
    var acc: seq<string> := [];
    var k := 0;
    while k < |cws|
      invariant 0 <= k <= |cws|
      invariant MapConcat(cws[..k], CandidatePiece) == Some(acc)
    {
      assert cws[..k + 1][..k] == cws[..k];
      if Nullish(cws[k]) {
        // `cwObj.w` throws
        NoneExtends(cws, k + 1, CandidatePiece);
        return None;
      }
      var piece := ToStr(Or(Prop(cws[k], "w"), Str("")));
      if piece.None? {
        // converting the piece to text throws
        NoneExtends(cws, k + 1, CandidatePiece);
        return None;
      }
      acc := acc + [piece.value];
      k := k + 1;
    }
    assert cws[..|cws|] == cws;
    pieces := Some(acc);
  }

  /** The middle loop: `for (const wsObj of rtObj.ws || [])`. */
  method CollectSlots(wss: seq<Value>) returns (pieces: Option<seq<string>>)
    ensures pieces == MapConcat(wss, SlotPieces)
  {
    var acc: seq<string> := [];
    var j := 0;
    while j < |wss|
      invariant 0 <= j <= |wss|
      invariant MapConcat(wss[..j], SlotPieces) == Some(acc)
    {
      assert wss[..j + 1][..j] == wss[..j];
      var cwIter := Members(wss[j], "cw");
      var slot: Option<seq<string>> := None;
      if cwIter.Some? {
        slot := CollectCandidates(cwIter.value);
      }
      if slot.None? {
        NoneExtends(wss, j + 1, SlotPieces);
        return None;
      }
      acc := acc + slot.value;
      j := j + 1;
    }
    assert wss[..|wss|] == wss;
    pieces := Some(acc);
  }

  /** The three nested `for...of` loops that fill `tempResult`, outermost over `st.rt || []`. */
  method CollectPieces(msg: Value) returns (pieces: Option<seq<string>>)
    ensures pieces == Pieces(msg)
  {
    if Nullish(msg) {
      // `messageObj.cn` throws
      return None;
    }
    var cn := Or(Prop(msg, "cn"), Obj(map[]));
    var st := Or(Prop(cn, "st"), Obj(map[]));
    var rtIter := Iterate(Or(Prop(st, "rt"), Arr([])));
    if rtIter.None? {
      return None;
    }
    var rts := rtIter.value;
    assert StatusObject(msg) == Some(st);
    assert Pieces(msg) == MapConcat(rts, GroupPieces);
    var tempResult: seq<string> := [];
    var i := 0;
    while i < |rts|
      invariant 0 <= i <= |rts|
      invariant MapConcat(rts[..i], GroupPieces) == Some(tempResult)
    {
      assert rts[..i + 1][..i] == rts[..i];
      var wsIter := Members(rts[i], "ws");
      var group: Option<seq<string>> := None;
      if wsIter.Some? {
        group := CollectSlots(wsIter.value);
      }
      assert group == GroupPieces(rts[i]);
      if group.None? {
        NoneExtends(rts, i + 1, GroupPieces);
        return None;
      }
      tempResult := tempResult + group.value;
      i := i + 1;
    }
    assert rts[..|rts|] == rts;
    pieces := Some(tempResult);
  }

  /** Once a prefix throws, the whole walk throws. */
  lemma {:induction false} NoneExtends(xs: seq<Value>, k: nat, f: Value -> Option<seq<string>>)
    requires k <= |xs|
    requires MapConcat(xs[..k], f) == None
    ensures MapConcat(xs, f) == None
    decreases |xs| - k
  {
    if k == |xs| {
      assert xs[..k] == xs;
    } else {
      assert xs[..k + 1][..k] == xs[..k];
      NoneExtends(xs, k + 1, f);
    }
  }

  // ---------------------------------------------------------------------
  // Well-formed results and the text they denote

  /** A well-formed recognition result: `groups[g][s][c]` is the `w` of
      candidate c of word slot s of group g, None when it has no `w`. */
  datatype Recognized = Recognized(kind: string, groups: seq<seq<seq<Option<string>>>>)

  function CandidateValue(c: Option<string>): Value {
    match c
    case None => Obj(map[])
    case Some(w) => Obj(map["w" := Str(w)])
  }

  function SlotValue(cands: seq<Option<string>>): Value {
    Obj(map["cw" := Arr(seq(|cands|, i requires 0 <= i < |cands| => CandidateValue(cands[i])))])
  }

  function GroupValue(slots: seq<seq<Option<string>>>): Value {
    Obj(map["ws" := Arr(seq(|slots|, i requires 0 <= i < |slots| => SlotValue(slots[i])))])
  }

  function GroupValues(groups: seq<seq<seq<Option<string>>>>): seq<Value> {
    seq(|groups|, i requires 0 <= i < |groups| => GroupValue(groups[i]))
  }

  function StatusValue(r: Recognized): Value {
    Obj(map["type" := Str(r.kind), "rt" := Arr(GroupValues(r.groups))])
  }

  /** The parsed JSON object the service sends for `r`. */
  function Encode(r: Recognized): Value {
    Obj(map["cn" := Obj(map["st" := StatusValue(r)])])
  }

  /** The words of one slot in order, a missing `w` read as "". */
  function SlotText(cands: seq<Option<string>>): string {
    Concat(seq(|cands|, i requires 0 <= i < |cands| => cands[i].GetOr("")))
  }

  function GroupText(slots: seq<seq<Option<string>>>): string {
    Concat(seq(|slots|, i requires 0 <= i < |slots| => SlotText(slots[i])))
  }

  /** The in-order concatenation of every `w` across rt -> ws -> cw. */
  function Transcript(groups: seq<seq<seq<Option<string>>>>): string {
    Concat(GroupTexts(groups))
  }

  function GroupTexts(groups: seq<seq<seq<Option<string>>>>): seq<string> {
    seq(|groups|, i requires 0 <= i < |groups| => GroupText(groups[i]))
  }

  /** A walk in which nothing throws yields the concatenation of the parts' texts. */
  lemma {:induction false} MapConcatTotal(xs: seq<Value>, f: Value -> Option<seq<string>>, texts: seq<string>)
    requires |texts| == |xs|
    requires forall i :: 0 <= i < |xs| ==> f(xs[i]).Some? && Concat(f(xs[i]).value) == texts[i]
    ensures MapConcat(xs, f).Some? && Concat(MapConcat(xs, f).value) == Concat(texts)
    decreases |xs|
  {
    if xs != [] {
      var n := |xs| - 1;
      MapConcatTotal(xs[..n], f, texts[..n]);
      var init := MapConcat(xs[..n], f).value;
      var p := f(xs[n]).value;
      ConcatAppend(init, p);
      ConcatAppend(texts[..n], [texts[n]]);
      ConcatSingle(texts[n]);
      assert texts[..n] + [texts[n]] == texts;
    }
  }

  lemma SlotDecodes(cands: seq<Option<string>>)
    ensures SlotPieces(SlotValue(cands)).Some?
    ensures Concat(SlotPieces(SlotValue(cands)).value) == SlotText(cands)
  {
    var xs := seq(|cands|, i requires 0 <= i < |cands| => CandidateValue(cands[i]));
    var texts := seq(|cands|, i requires 0 <= i < |cands| => cands[i].GetOr(""));
    forall i | 0 <= i < |xs|
      ensures CandidatePiece(xs[i]).Some? && Concat(CandidatePiece(xs[i]).value) == texts[i]
    {
      ConcatSingle(texts[i]);
    }
    MapConcatTotal(xs, CandidatePiece, texts);
  }

  lemma GroupDecodes(slots: seq<seq<Option<string>>>)
    ensures GroupPieces(GroupValue(slots)).Some?
    ensures Concat(GroupPieces(GroupValue(slots)).value) == GroupText(slots)
  {
    var xs := seq(|slots|, i requires 0 <= i < |slots| => SlotValue(slots[i]));
    var texts := seq(|slots|, i requires 0 <= i < |slots| => SlotText(slots[i]));
    forall i | 0 <= i < |xs|
      ensures SlotPieces(xs[i]).Some? && Concat(SlotPieces(xs[i]).value) == texts[i]
    {
      SlotDecodes(slots[i]);
    }
    MapConcatTotal(xs, SlotPieces, texts);
  }

  lemma EncodeShape(r: Recognized)
    ensures StatusObject(Encode(r)) == Some(StatusValue(r))
    ensures Pieces(Encode(r)) == MapConcat(GroupValues(r.groups), GroupPieces)
    ensures Prop(StatusValue(r), "type") == Str(r.kind)
  {
    var st := StatusValue(r);
    assert Prop(Obj(map["st" := st]), "st") == st;
    assert Prop(st, "rt") == Arr(GroupValues(r.groups));
  }

  /** A well-formed result decodes to the in-order concatenation of all its
      words: Final for type "0", live text for every other type. */
  lemma WellFormedDecodes(r: Recognized)
    ensures DecodeFragment(Encode(r)) ==
      Some(if r.kind == "0" then Final(Transcript(r.groups)) else Partial(Transcript(r.groups)))
  {
    var xs := GroupValues(r.groups);
    var texts := GroupTexts(r.groups);
    forall i | 0 <= i < |xs|
      ensures GroupPieces(xs[i]).Some? && Concat(GroupPieces(xs[i]).value) == texts[i]
    {
      GroupDecodes(r.groups[i]);
    }
    MapConcatTotal(xs, GroupPieces, texts);
    EncodeShape(r);
    var d := DecodeFragment(Encode(r));
    assert d.Some? && d.value.text == Transcript(r.groups);
    assert d.value.Final? <==> r.kind == "0";
  }

  /** A missing (or falsy) level contributes no words: no `cn`, a `cn`
      without `st`, or an `st` without `rt` gives an empty text, final or live
      as `st.type` says. */
  lemma MissingStructureIsEmpty(msg: Value)
    requires !Nullish(msg)
    ensures !Truthy(Prop(msg, "cn")) ==> DecodeFragment(msg) == Some(Partial(""))
    ensures !Truthy(Prop(Or(Prop(msg, "cn"), Obj(map[])), "st")) ==> DecodeFragment(msg) == Some(Partial(""))
    ensures var st := StatusObject(msg).value;
      !Truthy(Prop(st, "rt")) ==>
        DecodeFragment(msg) == Some(if Prop(st, "type") == Str("0") then Final("") else Partial(""))
  {
  }

  /** An element whose pieces are empty adds nothing to the walk around it. */
  lemma {:induction false} EmptyPartAddsNothing(xs: seq<Value>, x: Value, ys: seq<Value>,
                                               f: Value -> Option<seq<string>>)
    requires f(x) == Some([])
    ensures MapConcat(xs + [x] + ys, f) == MapConcat(xs + ys, f)
    decreases |ys|
  {
    if ys == [] {
      assert xs + [x] + ys == xs + [x] && xs + ys == xs;
      assert (xs + [x])[..|xs|] == xs;
      match MapConcat(xs, f) {
        case None =>
        case Some(init) => assert init + [] == init;
      }
    } else {
      var n := |ys| - 1;
      assert (xs + [x] + ys)[..|xs| + 1 + n] == xs + [x] + ys[..n];
      assert (xs + ys)[..|xs| + n] == xs + ys[..n];
      assert (xs + [x] + ys)[|xs| + 1 + n] == ys[n] == (xs + ys)[|xs| + n];
      EmptyPartAddsNothing(xs, x, ys[..n], f);
    }
  }

  /** A group without `ws`, or a slot without `cw`, adds nothing to the words
      of the groups or slots around it. */
  lemma MissingListAddsNothing(xs: seq<Value>, x: Value, ys: seq<Value>)
    requires !Nullish(x)
    ensures !Truthy(Prop(x, "ws")) ==> MapConcat(xs + [x] + ys, GroupPieces) == MapConcat(xs + ys, GroupPieces)
    ensures !Truthy(Prop(x, "cw")) ==> MapConcat(xs + [x] + ys, SlotPieces) == MapConcat(xs + ys, SlotPieces)
  {
    if !Truthy(Prop(x, "ws")) {
      EmptyPartAddsNothing(xs, x, ys, GroupPieces);
    }
    if !Truthy(Prop(x, "cw")) {
      EmptyPartAddsNothing(xs, x, ys, SlotPieces);
    }
  }

  /** A word that cannot be converted to text (an object with its own
      "toString" key) makes the whole slot throw, wherever it stands. */
  lemma UnprintableWordThrows(cws: seq<Value>, k: nat, props: map<string, Value>)
    requires k < |cws| && cws[k] == Obj(map["w" := Obj(props)]) && "toString" in props
    ensures MapConcat(cws, CandidatePiece) == None
  {
    assert cws[..k + 1][..k] == cws[..k];
    assert cws[..k + 1][k] == cws[k];
    NoneExtends(cws, k + 1, CandidatePiece);
  }

  /** A result whose only word is such an object is handed back raw. */
  lemma UnprintableWordIsRaw(message: string, parse: JsonParser)
    requires parse(message) == Some(
      Obj(map["cn" := Obj(map["st" := Obj(map["rt" := Arr([Obj(map["ws" := Arr([Obj(map["cw" := Arr([Obj(map["w" := Obj(map["toString" := Num("1")])])])])])])])])])]))
    ensures ParseFragment(message, parse) == None
  {
    var cws := [Obj(map["w" := Obj(map["toString" := Num("1")])])];
    var slot := Obj(map["cw" := Arr(cws)]);
    var group := Obj(map["ws" := Arr([slot])]);
    var st := Obj(map["rt" := Arr([group])]);
    var msg := Obj(map["cn" := Obj(map["st" := st])]);
    assert parse(message) == Some(msg);
    assert StatusObject(msg) == Some(st);
    assert Pieces(msg) == MapConcat([group], GroupPieces);
    UnprintableWordThrows(cws, 0, map["toString" := Num("1")]);
    assert SlotPieces(slot) == None;
    assert [slot][..0] == [] && [group][..0] == [];
    assert MapConcat([slot], SlotPieces) == None;
    assert GroupPieces(group) == None;
  }

  /** The text "null" parses, yet reading `.cn` on it throws: such a result is
      handed back as raw text, like an unparseable one. */
  lemma NullResultIsRaw(message: string, parse: JsonParser)
    requires parse(message) == Some(Null)
    ensures ParseFragment(message, parse) == None
  {
  }
}
