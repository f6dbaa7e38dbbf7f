/** Option, the one wrapper the model needs. */
module Wrappers {
  datatype Option<+T> = None | Some(value: T) {
    function GetOr(default: T): T {
      match this
      case Some(v) => v
      case None => default
    }
  }
}

/**
 * The part of JavaScript's value semantics that the client code relies on:
 * values produced by JSON.parse (plus `undefined` for a missing property),
 * truthiness and `||`, property reads, `for...of`, and string conversion.
 */
module JsValues {
  import opened Wrappers

  /** A JavaScript value. A number is kept as the text String(n) gives for it:
      the client only ever tests a number for truthiness or prints it. */
  datatype Value =
    | Undefined
    | Null
    | Bool(b: bool)
    | Num(repr: string)
    | Str(s: string)
    | Arr(items: seq<Value>)
    | Obj(props: map<string, Value>)

  /** JSON.parse on a text: None when it throws a SyntaxError. A library call,
      so the model takes it as a parameter. */
  type JsonParser = string -> Option<Value>

  /** JavaScript truthiness: undefined, null, false, 0 (and NaN) and "" are falsy. */
  predicate Truthy(v: Value)
    ensures Nullish(v) ==> !Truthy(v)
    // an array or object is truthy even when empty
    ensures v.Arr? || v.Obj? ==> Truthy(v)
    ensures v.Str? ==> (Truthy(v) <==> v.s != "")
  {
    match v
    case Undefined => false
    case Null => false
    case Bool(b) => b
    case Num(repr) => repr != "0" && repr != "NaN"
    case Str(s) => s != ""
    case Arr(_) => true
    case Obj(_) => true
  }

  /** `a || b` */
  function Or(a: Value, b: Value): (r: Value)
    ensures r == a || r == b
    ensures Truthy(r) <==> Truthy(a) || Truthy(b)
    ensures !Truthy(a) ==> r == b
  {
    if Truthy(a) then a else b
  }

  predicate Nullish(v: Value) {
    v.Undefined? || v.Null?
  }

  /** `v.key` on a value that is not null or undefined. None of the keys the
      client reads is an inherited property of strings, arrays or objects. */
  function Prop(v: Value, key: string): (r: Value)
    ensures v.Obj? && key in v.props ==> r == v.props[key]
    // an absent key, and every key of a non-object, reads as undefined
    ensures !(v.Obj? && key in v.props) ==> r == Undefined
  {
    if v.Obj? && key in v.props then v.props[key] else Undefined
  }

  /** `v.key`, which throws a TypeError (None) on null and undefined. */
  function Get(v: Value, key: string): (r: Option<Value>)
    ensures r.None? <==> Nullish(v)
  {
    if Nullish(v) then None else Some(Prop(v, key))
  }

  /** The elements `for (const x of v)` visits: an array's elements, a string's
      characters as one-character strings; anything else throws (None). */
  function Iterate(v: Value): (r: Option<seq<Value>>)
    ensures r.Some? <==> v.Arr? || v.Str?
    ensures v.Arr? ==> r == Some(v.items)
    ensures v.Str? ==> r.Some? && |r.value| == |v.s|
    ensures v.Str? ==> forall i :: 0 <= i < |v.s| ==> r.value[i] == Str([v.s[i]])
  {
    match v
    case Arr(items) => Some(items)
    case Str(s) => Some(seq(|s|, i requires 0 <= i < |s| => Str([s[i]])))
    case _ => None
  }

  /** String(v), which is also what a template literal and `join` use; None
      when it throws. Converting an object calls its `toString`, falling back
      to `valueOf`. An object parsed from JSON that has its own "toString" key
      holds a value there that cannot be called, and `Object.prototype.valueOf`
      gives back the object itself, so the conversion throws a TypeError. An
      array converts its elements (null and undefined as ""), and throws when
      one of them does. */
  function ToStr(v: Value): (r: Option<string>)
    ensures v.Obj? ==> (r.None? <==> "toString" in v.props)
    ensures v.Obj? && r.Some? ==> r.value == "[object Object]"
    ensures v.Str? ==> r == Some(v.s)
    // primitives always convert
    ensures !v.Arr? && !v.Obj? ==> r.Some?
  {
    match v
    case Undefined => Some("undefined")
    case Null => Some("null")
    case Bool(b) => Some(if b then "true" else "false")
    case Num(repr) => Some(repr)
    case Str(s) => Some(s)
    case Arr(items) =>
      // Array.prototype.toString is join(',')
      var parts := seq(|items|, i requires 0 <= i < |items| =>
        if Nullish(items[i]) then Some("") else ToStr(items[i]));
      if forall i | 0 <= i < |parts| :: parts[i].Some? then
        Some(Join(",", seq(|parts|, i requires 0 <= i < |parts| => parts[i].GetOr(""))))
      else None
    case Obj(props) => if "toString" in props then None else Some("[object Object]")
  }

  /** An array converts unless one of its non-null elements does not, at any depth. */
  lemma ArrayToStrThrows(items: seq<Value>)
    ensures ToStr(Arr(items)).None? <==>
      exists i :: 0 <= i < |items| && !Nullish(items[i]) && ToStr(items[i]).None?
  {
    var parts := seq(|items|, i requires 0 <= i < |items| =>
      if Nullish(items[i]) then Some("") else ToStr(items[i]));
    assert forall i :: 0 <= i < |items| ==> parts[i] == (if Nullish(items[i]) then Some("") else ToStr(items[i]));
  }

  /** The elements of `ss` separated by `sep`. */
  function Join(sep: string, ss: seq<string>): string
    decreases |ss|
  {
    if |ss| == 0 then ""
    else if |ss| == 1 then ss[0]
    else ss[0] + sep + Join(sep, ss[1..])
  }

  /** `ss.join('')` on strings. */
  function Concat(ss: seq<string>): string
    decreases |ss|
  {
    if ss == [] then "" else ss[0] + Concat(ss[1..])
  }

  lemma {:induction false} ConcatAppend(a: seq<string>, b: seq<string>)
    ensures Concat(a + b) == Concat(a) + Concat(b)
    decreases |a|
  {
    if a == [] {
      assert a + b == b;
    } else {
      assert (a + b)[1..] == a[1..] + b;
      ConcatAppend(a[1..], b);
    }
  }

  lemma ConcatSingle(x: string)
    ensures Concat([x]) == x
  {
    assert [x][1..] == [];
  }

  /** Joining with the empty separator is concatenation. */
  lemma {:induction false} JoinEmptyIsConcat(ss: seq<string>)
    ensures Join("", ss) == Concat(ss)
    decreases |ss|
  {
    if |ss| == 1 {
      ConcatSingle(ss[0]);
      assert ss == [ss[0]];
    } else if |ss| > 1 {
      JoinEmptyIsConcat(ss[1..]);
    }
  }
}
