/**
  Candidate normalisation: how the prompt turns loosely shaped entries (plain
  values or partial records) into fixed `{title, value, description, disabled}`
  records. The configured choices go through `??` precedence; the matcher's
  results go through `getTitle`/`getVal`, which use `||` precedence instead.
  Also `getIndex`, the first-match search that resolves an initial selection
  given as a value or title.
 */
module Candidates {
  import opened JsValues

  /** A normalised entry of the choice or suggestion list. `disabled` keeps the
      raw truthy value (`c.disabled || false`); it is only ever tested for
      truthiness. */
  datatype Candidate = Candidate(title: Val, value: Val, description: Val, disabled: Val)

  predicate IsDisabled(c: Candidate) {
    Truthy(c.disabled)
  }

  /** One configured choice: `title: c.title ?? c.value ?? c`,
      `value: c.value ?? c.title ?? c`, `description: c.description`,
      `disabled: c.disabled || false`. */
  function NormalizeChoice(c: Val): (r: Candidate)
    requires !Nullish(c)
    // neither title nor value can end up null or undefined
    ensures !Nullish(r.title) && !Nullish(r.value)
    // only null/undefined fall through: a present but falsy field (0, "", false) is kept
    ensures !Nullish(Prop(c, Title)) ==> r.title == Prop(c, Title)
    ensures !Nullish(Prop(c, Value)) ==> r.value == Prop(c, Value)
    // a missing title mirrors the value, and a missing value mirrors the title
    ensures Nullish(Prop(c, Title)) || Nullish(Prop(c, Value)) ==> r.title == r.value
    // a record with neither field, and any primitive, stands for itself
    ensures Nullish(Prop(c, Title)) && Nullish(Prop(c, Value)) ==> r.title == c && r.value == c
    ensures r.description == Prop(c, Description)
    // disabled defaults to false
    ensures IsDisabled(r) <==> Truthy(Prop(c, Disabled))
    ensures !IsDisabled(r) ==> r.disabled == Bool(false)
  {
    Candidate(
      Coalesce(Coalesce(Prop(c, Title), Prop(c, Value)), c),
      Coalesce(Coalesce(Prop(c, Value), Prop(c, Title)), c),
      Prop(c, Description),
      Or(Prop(c, Disabled), Bool(false)))
  }

  /** `opts.choices.map(...)` in the constructor. A `null` or `undefined` choice
      makes the property reads throw, which is `None` here. */
  function NormalizeChoices(raw: seq<Val>): (r: Option<seq<Candidate>>)
    ensures r.Some? <==> NoNullish(raw)
    ensures r.Some? ==> |r.value| == |raw|
    ensures r.Some? ==> forall i :: 0 <= i < |raw| ==> r.value[i] == NormalizeChoice(raw[i])
  {
    if NoNullish(raw) then Some(seq(|raw|, i requires 0 <= i < |raw| => NormalizeChoice(raw[i])))
    else None
  }

  /** `getVal(arr, i) = arr[i] && (arr[i].value || arr[i].title || arr[i])` */
  function GetVal(arr: seq<Val>, i: int): (r: Val)
    // outside the array the result is undefined
    ensures !(0 <= i < |arr|) ==> r == Undefined
    // a falsy entry is returned as it is
    ensures 0 <= i < |arr| && !Truthy(arr[i]) ==> r == arr[i]
    // a truthy entry yields the first truthy of value, title and the entry itself
    ensures 0 <= i < |arr| && Truthy(arr[i]) ==>
      Truthy(r) &&
      (Truthy(Prop(arr[i], Value)) ==> r == Prop(arr[i], Value)) &&
      (!Truthy(Prop(arr[i], Value)) && Truthy(Prop(arr[i], Title)) ==> r == Prop(arr[i], Title)) &&
      (!Truthy(Prop(arr[i], Value)) && !Truthy(Prop(arr[i], Title)) ==> r == arr[i])
  {
    var e := At(arr, i);
    if !Truthy(e) then e else Or(Or(Prop(e, Value), Prop(e, Title)), e)
  }

  /** `getTitle(arr, i) = arr[i] && (arr[i].title || arr[i].value || arr[i])` */
  function GetTitle(arr: seq<Val>, i: int): (r: Val)
    ensures !(0 <= i < |arr|) ==> r == Undefined
    ensures 0 <= i < |arr| && !Truthy(arr[i]) ==> r == arr[i]
    ensures 0 <= i < |arr| && Truthy(arr[i]) ==>
      Truthy(r) &&
      (Truthy(Prop(arr[i], Title)) ==> r == Prop(arr[i], Title)) &&
      (!Truthy(Prop(arr[i], Title)) && Truthy(Prop(arr[i], Value)) ==> r == Prop(arr[i], Value)) &&
      (!Truthy(Prop(arr[i], Title)) && !Truthy(Prop(arr[i], Value)) ==> r == arr[i])
  {
    var e := At(arr, i);
    if !Truthy(e) then e else Or(Or(Prop(e, Title), Prop(e, Value)), e)
  }

  /** One matcher result entry, normalised inside `complete`. */
  function NormalizeSuggestion(arr: seq<Val>, i: int): Candidate
    requires 0 <= i < |arr| && !Nullish(arr[i])
  {
    Candidate(GetTitle(arr, i), GetVal(arr, i), Prop(arr[i], Description), Or(Prop(arr[i], Disabled), Bool(false)))
  }

  /** `suggestions.map(...)` in `complete`: the list is replaced wholesale. A
      `null` or `undefined` result entry makes `s.description` throw, which is
      `None` here. */
  function NormalizeSuggestions(arr: seq<Val>): (r: Option<seq<Candidate>>)
    ensures r.Some? <==> NoNullish(arr)
    ensures r.Some? ==> |r.value| == |arr|
    ensures r.Some? ==> forall i :: 0 <= i < |arr| ==> r.value[i] == NormalizeSuggestion(arr, i)
  {
    if NoNullish(arr) then Some(seq(|arr|, i requires 0 <= i < |arr| => NormalizeSuggestion(arr, i)))
    else None
  }

  /** Every normalised suggestion has a title and a value that are neither null
      nor undefined, a description copied from its entry, and is disabled
      exactly when its entry's `disabled` is truthy. */
  lemma SuggestionsWellFormed(arr: seq<Val>)
    requires NoNullish(arr)
    ensures var s := NormalizeSuggestions(arr).value;
      forall i :: 0 <= i < |s| ==>
        !Nullish(s[i].title) && !Nullish(s[i].value) &&
        s[i].description == Prop(arr[i], Description) &&
        (IsDisabled(s[i]) <==> Truthy(Prop(arr[i], Disabled)))
  {
  }

  /** Where the two normalisers differ: a choice whose `value` is the falsy `0`
      keeps it under `??`, but as a matcher result `||` replaces it by its title. */
  lemma FalsyValueFallsThrough(id: nat, t: string)
    requires t != ""
    ensures var e := Obj(id, Str(t), Num(0), Undefined, Undefined);
      NormalizeChoice(e).value == Num(0) &&
      NormalizeSuggestions([e]).value[0].value == Str(t)
  {
  }

  /** The outcome of `getIndex`: an index, `undefined`, or the TypeError thrown
      when the search reads a property of a `null`/`undefined` entry. */
  datatype Search = Found(index: nat) | NotFound | Threw

  /** The predicate `findIndex` is called with: `el.value === key || el.title === key`. */
  predicate Matches(el: Val, key: Val)
    requires !Nullish(el)
  {
    StrictEq(Prop(el, Value), key) || StrictEq(Prop(el, Title), key)
  }

  /** Every entry in `[lo, hi)` is readable and does not match. */
  predicate Passed(arr: seq<Val>, key: Val, lo: int, hi: int)
    requires 0 <= lo && hi <= |arr|
  {
    forall j :: lo <= j < hi ==> !Nullish(arr[j]) && !Matches(arr[j], key)
  }

  /** `arr.findIndex(...)` started at `k`: visits entries in order and stops at
      the first match or the first entry it cannot read. */
  function FindIndexFrom(arr: seq<Val>, key: Val, k: nat): (r: Search)
    requires k <= |arr|
    decreases |arr| - k
    ensures r.Found? ==>
      k <= r.index < |arr| && !Nullish(arr[r.index]) && Matches(arr[r.index], key) &&
      Passed(arr, key, k, r.index)
    ensures r.NotFound? ==> Passed(arr, key, k, |arr|)
    ensures r.Threw? ==> exists j :: k <= j < |arr| && Nullish(arr[j]) && Passed(arr, key, k, j)
  {
    if k == |arr| then NotFound
    else if Nullish(arr[k]) then Threw
    else if Matches(arr[k], key) then Found(k)
    else FindIndexFrom(arr, key, k + 1)
  }

  /** `getIndex(arr, valOrTitle)`: the smallest index whose value or title is
      strictly equal to the key; `NotFound` stands for `undefined`. */
  function GetIndex(arr: seq<Val>, key: Val): (r: Search)
    // on readable entries the search never throws
    ensures NoNullish(arr) ==> !r.Threw?
    ensures r.Found? ==>
      r.index < |arr| && !Nullish(arr[r.index]) && Matches(arr[r.index], key) &&
      Passed(arr, key, 0, r.index)
    ensures r.NotFound? ==> Passed(arr, key, 0, |arr|)
  {
    FindIndexFrom(arr, key, 0)
  }

  /** Whenever some readable entry matches, the search finds a match at or
      before it. */
  lemma GetIndexFirstMatch(arr: seq<Val>, key: Val, i: nat)
    requires i < |arr| && NoNullish(arr) && Matches(arr[i], key)
    ensures GetIndex(arr, key).Found? && GetIndex(arr, key).index <= i
  {
  }
}
