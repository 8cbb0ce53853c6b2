/** The fragment of JavaScript evaluation that the chat client's response
    expressions rely on: property access, optional chaining (`?.`),
    `Array.prototype.find` with a property-reading callback, truthiness and `||`.
    It is the reference against which the typed reducers of ChatService are checked. */
module Js {

  /** A JavaScript value as parsed from a JSON body, plus `undefined`, which a
      missing property or an index past the end evaluates to. Numbers and
      booleans are not modelled. */
  datatype Value = Undefined | Null | Str(s: string) | Arr(items: seq<Value>) | Obj(fields: map<string, Value>)

  /** The outcome of evaluating an expression that may throw a TypeError. */
  datatype Eval<T> = Done(value: T) | TypeError

  /** A property name (`v.name`) or an array index (`v[index]`). */
  datatype Key = Name(name: string) | Index(index: nat)

  /** One link of a member chain: a property access, plain or optional (`?.`),
      or a call `.find(x => x[field])`. */
  datatype Step = Member(key: Key, optional: bool) | FindBy(field: string)

  predicate Nullish(v: Value) {
    v.Undefined? || v.Null?
  }

  /** JavaScript truthiness: undefined, null and the empty string are falsy,
      every other string, every array and every object is truthy. */
  predicate Truthy(v: Value) {
    match v
    case Undefined | Null => false
    case Str(s) => s != ""
    case Arr(_) | Obj(_) => true
  }

  /** `v.name` or `v[index]`. Reading a property of undefined or null throws;
      a property the value does not have reads as undefined. An object's
      numeric-named properties and a string's `length` are not modelled. */
  function Get(v: Value, key: Key): (r: Eval<Value>)
    ensures r.TypeError? <==> Nullish(v)
    ensures v.Obj? && key.Name? ==> r == Done(if key.name in v.fields then v.fields[key.name] else Undefined)
    ensures v.Arr? && key.Index? ==> r == Done(if key.index < |v.items| then v.items[key.index] else Undefined)
  {
    match v
    case Undefined | Null => TypeError
    case Obj(m) => if key.Name? && key.name in m then Done(m[key.name]) else Done(Undefined)
    case Arr(s) => if key.Index? && key.index < |s| then Done(s[key.index]) else Done(Undefined)
    case Str(s) => if key.Index? && key.index < |s| then Done(Str([s[key.index]])) else Done(Undefined)
  }

  /** `items.find(x => x[field])`: the first element whose `field` is truthy, or
      undefined when there is none. The callback reads a property of every
      element it visits, so a nullish element before the match throws. */
  function Find(items: seq<Value>, field: string): Eval<Value>
  {
    if items == [] then Done(Undefined)
    else match Get(items[0], Name(field))
      case TypeError => TypeError
      case Done(t) => if Truthy(t) then Done(items[0]) else Find(items[1..], field)
  }

  /** `v.find(...)` on a value that is not an array throws: undefined and null
      have no properties, and `find` of any other non-array is not a function. */
  function Apply(v: Value, step: Step): (r: Eval<Value>)
    ensures step.FindBy? && !v.Arr? ==> r.TypeError?
  {
    match step
    case Member(key, _) => Get(v, key)
    case FindBy(field) => if v.Arr? then Find(v.items, field) else TypeError
  }

  /** What `find` can give: undefined, or an element of the array whose field
      is truthy; it throws only on an array that holds a nullish element. */
  lemma {:induction false} FindResult(items: seq<Value>, field: string)
    ensures Find(items, field).TypeError? ==> exists i :: 0 <= i < |items| && Nullish(items[i])
    ensures Find(items, field).Done? && Find(items, field).value != Undefined ==>
      && Find(items, field).value in items
      && Get(Find(items, field).value, Name(field)).Done?
      && Truthy(Get(Find(items, field).value, Name(field)).value)
  {
    if items != [] && Get(items[0], Name(field)).Done? && !Truthy(Get(items[0], Name(field)).value) {
      FindResult(items[1..], field);
      if Find(items, field).TypeError? {
        var i :| 0 <= i < |items[1..]| && Nullish(items[1..][i]);
        assert items[i + 1] == items[1..][i];
      }
    }
  }

  /** Evaluates a member chain left to right. An optional link applied to a
      nullish value ends the whole chain with undefined (short-circuiting);
      any other link applied to a nullish value throws. */
  function Chain(v: Value, steps: seq<Step>): Eval<Value>
    decreases |steps|
  {
    if steps == [] then Done(v)
    else if steps[0].Member? && steps[0].optional && Nullish(v) then Done(Undefined)
    else match Apply(v, steps[0])
      case TypeError => TypeError
      case Done(w) => Chain(w, steps[1..])
  }

  /** `v || fallback` */
  function Or(v: Value, fallback: Value): (r: Value)
    ensures Truthy(v) ==> r == v
    ensures !Truthy(v) ==> r == fallback
  {
    if Truthy(v) then v else fallback
  }

  /** With a truthy fallback, as both reply expressions have, `||` always
      gives a truthy value, and applying it again changes nothing. */
  lemma OrTruthy(v: Value, fallback: Value)
    ensures Truthy(Or(v, fallback)) <==> Truthy(v) || Truthy(fallback)
    ensures Or(Or(v, fallback), fallback) == Or(v, fallback)
  {
  }
}
