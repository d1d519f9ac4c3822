/** The seen-species reducer: a pure function from a state object and an
    action to the next state object, or to what it throws.

    The state is a JavaScript object whose keys the `filter_change` action
    can choose freely, so it is modelled as a map from property names to
    JavaScript values. */
module Reducer {
  import opened Wrappers
  import Seqs

  /** A JavaScript value. Numbers are integers here. */
  datatype Value =
    | Undefined
    | Null
    | Bool(b: bool)
    | Num(n: int)
    | Str(s: string)
    | Arr(items: seq<Value>)
    | Obj(fields: map<string, Value>)
  {
    /** JavaScript truthiness. */
    predicate Truthy() {
      match this
      case Undefined => false
      case Null => false
      case Bool(b) => b
      case Num(n) => n != 0
      case Str(s) => s != ""
      case Arr(_) => true
      case Obj(_) => true
    }
  }

  type State = map<string, Value>

  datatype Action = Action(kind: string, payload: Value)

  /** What the reducer throws: its own message, or a TypeError raised by the
      built-in operations it applies to a value of the wrong shape. */
  datatype Thrown = InvalidAction(message: string) | TypeError

  const InvalidReducerAction: string := "Invalid reducer action"

  /** Reading a property: a missing one is `undefined`. */
  function Get(obj: map<string, Value>, key: string): Value {
    if key in obj then obj[key] else Undefined
  }

  /** Decimal digits of a natural number. */
  function NatToString(n: nat): (r: string)
    ensures |r| >= 1
    ensures forall i :: 0 <= i < |r| ==> '0' <= r[i] <= '9'
  {
    var d := ['0' + (n % 10) as char];
    if n < 10 then d else NatToString(n / 10) + d
  }

  /** `String(v)`, which is also the property name `[v]` denotes. */
  function ToJsString(v: Value): string
    decreases v, 1
  {
    match v
    case Undefined => "undefined"
    case Null => "null"
    case Bool(b) => if b then "true" else "false"
    case Num(n) => if n < 0 then "-" + NatToString(-n) else NatToString(n)
    case Str(s) => s
    case Arr(items) => JoinElements(items, v)
    case Obj(_) => "[object Object]"
  }

  /** `items.join(",")`, where `null` and `undefined` elements print empty. */
  function JoinElements(items: seq<Value>, ghost whole: Value): string
    requires forall i :: 0 <= i < |items| ==> items[i] < whole
    decreases whole, 0, |items|
  {
    if items == [] then ""
    else
      (if items[0].Undefined? || items[0].Null? then "" else ToJsString(items[0]))
      + (if |items| > 1 then "," else "")
      + JoinElements(items[1..], whole)
  }

  /** `[...s]`: a string spreads into its characters. */
  function Chars(s: string): (r: seq<Value>)
    ensures |r| == |s|
    ensures forall i :: 0 <= i < |s| ==> r[i] == Str([s[i]])
  {
    seq(|s|, i requires 0 <= i < |s| => Str([s[i]]))
  }

  /** `[...v, x]`, which throws unless `v` is iterable. */
  function SpreadAppend(v: Value, x: Value): Result<Value, Thrown> {
    match v
    case Arr(items) => Ok(Arr(items + [x]))
    case Str(s) => Ok(Arr(Chars(s) + [x]))
    case _ => Err(TypeError)
  }

  /** The `expand_toggle` update of an array: every occurrence of `code`
      removed when present, `code` appended otherwise. */
  function Toggle(xs: seq<Value>, code: Value): seq<Value> {
    if code in xs then Seqs.RemoveAll(xs, code) else xs + [code]
  }

  /** `expanded.includes(code) ? expanded.filter(v => v !== code)
      : [...expanded, code]` on a value of any shape. */
  function ToggleValue(expanded: Value, code: Value): Result<Value, Thrown> {
    match expanded
    case Arr(items) => Ok(Arr(Toggle(items, code)))
    // A string has `includes` (on the string form of `code`) but no `filter`.
    case Str(s) => if Seqs.Contains(s, ToJsString(code)) then Err(TypeError) else Ok(Arr(Chars(s) + [code]))
    case _ => Err(TypeError)
  }

  /** `const { field, value } = payload`: destructuring throws on `null` and
      `undefined`; any other value yields its two properties. */
  function FieldAndValue(payload: Value): Result<(Value, Value), Thrown> {
    match payload
    case Undefined => Err(TypeError)
    case Null => Err(TypeError)
    case Obj(fields) => Ok((Get(fields, "field"), Get(fields, "value")))
    case _ => Ok((Undefined, Undefined))
  }

  /** Replaces one property of the state. */
  function Put(state: State, key: string, v: Value): State {
    state[key := v]
  }

  /** Applies an update that can throw to one property. */
  function Update(state: State, key: string, r: Result<Value, Thrown>): Result<State, Thrown> {
    match r
    case Ok(v) => Ok(Put(state, key, v))
    case Err(e) => Err(e)
  }

  /** The reducer: one branch per `case` of the source's `switch`. */
  function Reduce(state: State, action: Action): Result<State, Thrown> {
    var payload := action.payload;
    match action.kind
    case "set_species" => Ok(Put(state, "species", payload))
    case "set_states" => Ok(Put(state, "states", payload))
    case "set_seen" => Ok(Put(state, "seen", payload))
    case "set_showSeen" => Ok(Put(state, "showSeen", payload))
    case "set_address" => Ok(Put(state, "address", payload))
    case "add_seen" => Update(state, "seen", SpreadAppend(Get(state, "seen"), payload))
    case "expand_toggle" => Update(state, "expanded", ToggleValue(Get(state, "expanded"), payload))
    case "filter_change" =>
      (match FieldAndValue(payload)
       case Err(e) => Err(e)
       case Ok((field, value)) =>
         if field == Str("showSeen") then Ok(Put(state, "showSeen", Bool(!Get(state, "showSeen").Truthy())))
         else Ok(Put(state, ToJsString(field), value)))
    case _ => Err(InvalidAction(InvalidReducerAction))
  }

  /** The action types with a `case`, and the property each `set_` type replaces. */
  const SetterFields: map<string, string> := map[
    "set_species" := "species", "set_states" := "states", "set_seen" := "seen",
    "set_showSeen" := "showSeen", "set_address" := "address"]

  const HandledKinds: set<string> := SetterFields.Keys + {"add_seen", "expand_toggle", "filter_change"}

  /** `next` is `state` with property `key` set to `v` and every other
      property as it was. */
  predicate ChangesOnly(state: State, next: State, key: string, v: Value) {
    && key in next && next[key] == v
    && (forall k :: k in state && k != key ==> k in next && next[k] == state[k])
    && (forall k :: k in next && k != key ==> k in state)
  }

  /** Each `set_` action replaces exactly its own property with the payload. */
  lemma SetterReplacesOneField(state: State, action: Action)
    requires action.kind in SetterFields
    ensures Reduce(state, action).Ok?
    ensures ChangesOnly(state, Reduce(state, action).value, SetterFields[action.kind], action.payload)
  {
  }

  /** `add_seen` appends the payload to an array `seen`, whether or not it is
      already there, and changes nothing else. */
  lemma AddSeenAppends(state: State, code: Value, seen: seq<Value>)
    requires Get(state, "seen") == Arr(seen)
    ensures Reduce(state, Action("add_seen", code)).Ok?
    ensures ChangesOnly(state, Reduce(state, Action("add_seen", code)).value, "seen", Arr(seen + [code]))
    ensures multiset(seen + [code])[code] == multiset(seen)[code] + 1
  {
  }

  /** `add_seen` throws a TypeError when `seen` is not iterable. */
  lemma AddSeenNeedsIterable(state: State, code: Value)
    requires !Get(state, "seen").Arr? && !Get(state, "seen").Str?
    ensures Reduce(state, Action("add_seen", code)) == Err(TypeError)
  {
  }

  /** `Toggle` flips the membership of `code`; every other element keeps
      its membership, and the survivors keep their order. */
  lemma ToggleSpec(xs: seq<Value>, code: Value)
    ensures code in Toggle(xs, code) <==> code !in xs
    ensures forall i :: 0 <= i < |xs| && xs[i] != code ==> xs[i] in Toggle(xs, code)
    ensures forall i :: 0 <= i < |Toggle(xs, code)| && Toggle(xs, code)[i] != code ==> Toggle(xs, code)[i] in xs
    ensures code in xs ==> Seqs.Subseq(Toggle(xs, code), xs) && multiset(Toggle(xs, code)) == multiset(xs)[code := 0]
    ensures code !in xs ==> Toggle(xs, code) == xs + [code]
  {
    if code in xs {
      Seqs.RemoveAllSpec(xs, code);
    }
  }

  /** Toggling a code that is absent twice gives the array back. */
  lemma ToggleTwice(xs: seq<Value>, code: Value)
    requires code !in xs
    ensures Toggle(Toggle(xs, code), code) == xs
  {
    Seqs.RemoveAppended(xs, code);
  }

  /** `expand_toggle` on an array `expanded` changes only `expanded`, to its toggle. */
  lemma ExpandToggleUpdates(state: State, code: Value, expanded: seq<Value>)
    requires Get(state, "expanded") == Arr(expanded)
    ensures Reduce(state, Action("expand_toggle", code)).Ok?
    ensures ChangesOnly(state, Reduce(state, Action("expand_toggle", code)).value, "expanded", Arr(Toggle(expanded, code)))
  {
  }

  /** `filter_change` on `showSeen` negates the flag and ignores `value`. */
  lemma FilterChangeShowSeen(state: State, fields: map<string, Value>)
    requires Get(fields, "field") == Str("showSeen")
    ensures Reduce(state, Action("filter_change", Obj(fields))).Ok?
    ensures ChangesOnly(state, Reduce(state, Action("filter_change", Obj(fields))).value, "showSeen",
                        Bool(!Get(state, "showSeen").Truthy()))
  {
  }

  /** `filter_change` on any other field sets the property it names to
      `value` and changes nothing else. */
  lemma FilterChangeOther(state: State, fields: map<string, Value>)
    requires Get(fields, "field") != Str("showSeen")
    ensures Reduce(state, Action("filter_change", Obj(fields))).Ok?
    ensures ChangesOnly(state, Reduce(state, Action("filter_change", Obj(fields))).value,
                        ToJsString(Get(fields, "field")), Get(fields, "value"))
  {
  }

  /** Any action type without a `case` throws "Invalid reducer action". */
  lemma UnknownActionThrows(state: State, action: Action)
    requires action.kind !in HandledKinds
    ensures Reduce(state, action) == Err(InvalidAction("Invalid reducer action"))
  {
  }

  /** The types the page also dispatches, `remove_seen`, `toggle_sidebar`
      and `reset`, all throw. */
  lemma PageOnlyActionsThrow(state: State, payload: Value)
    ensures Reduce(state, Action("remove_seen", payload)).Err?
    ensures Reduce(state, Action("toggle_sidebar", payload)).Err?
    ensures Reduce(state, Action("reset", payload)).Err?
  {
    UnknownActionThrows(state, Action("remove_seen", payload));
    UnknownActionThrows(state, Action("toggle_sidebar", payload));
    UnknownActionThrows(state, Action("reset", payload));
  }
}
