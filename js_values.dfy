/**
  The slice of JavaScript's value model that the autocomplete prompt relies on:
  primitives, plain records carrying the four fields a choice may have, the
  nullish test behind `??`, the truthiness test behind `||` and `&&`, property
  access, and strict equality (`===`).
 */
module JsValues {

  datatype Option<T> = None | Some(value: T)

  /** A JavaScript value. Numbers are integers here; an object is a record with
      the four fields a choice can carry (a missing field is `Undefined`) and an
      identity `id`, which is what `===` compares for objects. */
  datatype Val =
    | Undefined
    | Null
    | Bool(b: bool)
    | Num(n: int)
    | Str(s: string)
    | Obj(id: nat, title: Val, value: Val, description: Val, disabled: Val)

  /** The properties of a choice that the prompt reads. */
  datatype Field = Title | Value | Description | Disabled

  /** `v === null || v === undefined`: the values `??` replaces. */
  predicate Nullish(v: Val) {
    v.Undefined? || v.Null?
  }

  /** JavaScript truthiness: `undefined`, `null`, `false`, `0` and `""` are falsy. */
  predicate Truthy(v: Val)
    ensures Truthy(v) ==> !Nullish(v)
  {
    match v
    case Undefined => false
    case Null => false
    case Bool(b) => b
    case Num(n) => n != 0
    case Str(s) => s != ""
    case Obj(_, _, _, _, _) => true
  }

  /** `a ?? b` */
  function Coalesce(a: Val, b: Val): Val {
    if Nullish(a) then b else a
  }

  /** `a || b` */
  function Or(a: Val, b: Val): Val {
    if Truthy(a) then a else b
  }

  /** `v.title`, `v.value`, ... ; reading a property of `null` or `undefined`
      throws a TypeError, so callers must rule those out first. A primitive has
      none of these properties. */
  function Prop(v: Val, f: Field): Val
    requires !Nullish(v)
  {
    match v
    case Obj(_, title, value, description, disabled) =>
      (match f
       case Title => title
       case Value => value
       case Description => description
       case Disabled => disabled)
    case _ => Undefined
  }

  /** `arr[i]`: `undefined` outside the array, negative indices included. */
  function At(arr: seq<Val>, i: int): Val {
    if 0 <= i < |arr| then arr[i] else Undefined
  }

  /** `a === b`: identity for objects, value equality for primitives. */
  predicate StrictEq(a: Val, b: Val) {
    if a.Obj? && b.Obj? then a.id == b.id else a == b
  }

  /** No entry of `arr` is `null` or `undefined`, so every property read on an
      entry succeeds. */
  predicate NoNullish(arr: seq<Val>) {
    forall i :: 0 <= i < |arr| ==> !Nullish(arr[i])
  }
}
