/**
  The autocomplete prompt's state machine: the suggestion list, the selection
  index and the value it commits, the token of the matcher call in flight, and
  the terminal flags. The matcher itself is not modelled: `Issue` stands for
  starting a `complete` call (which makes its promise the current
  `this.completing`), and `Resolve` for the moment that promise settles with a
  result list.
 */
module Autocomplete {
  import opened JsValues
  import opened Candidates
  import opened Selection

  /** What the base prompt is asked to do: ring the bell, or fire a state event
      carrying the current value. */
  datatype Event = BellRung | Fired(value: Val)

  class AutocompletePrompt {
    /** The normalised configured choices, handed to the matcher. */
    var choices: seq<Candidate>
    /** The current suggestion list, replaced wholesale on each resolution. */
    var suggestions: seq<Candidate>
    /** The selection index; a position, which may lie outside the list. */
    var select: int
    /** The committed value. */
    var value: Val
    /** `this.fallback.value`, the value committed for an index outside the list. */
    const fallbackValue: Val
    /** `this.completing`: the token of the matcher call whose result is awaited,
        or `None` for `false` once a result has been applied. */
    var completing: Option<nat>
    /** How many matcher calls have been started; the newest token. */
    var issued: nat
    var done: bool
    var aborted: bool
    var exited: bool
    /** Bells rung and events fired, oldest first. */
    ghost var events: seq<Event>

    /** At most one token is current, and it is the newest one issued. */
    ghost predicate Valid()
      reads this
    {
      completing == None || completing == Some(issued)
    }

    /** What `moveSelect` did, given the state before it: `m` decides which
        fields moved and which event, if any, was emitted. */
    ghost predicate MovedBy(m: Move, select0: int, value0: Val, events0: seq<Event>)
      reads this
    {
      match m
      case Idle => select == select0 && value == value0 && events == events0
      case Bell => select == select0 && value == value0 && events == events0 + [BellRung]
      case Commit(j) =>
        select == j && value == ValueAt(suggestions, j, fallbackValue) &&
        events == events0 + [Fired(value)]
    }

    /** The constructor: normalise the choices, pick the initial selection
        (`initial || cursor || 0`, where a non-number `initial` is looked up with
        `getIndex`), and start the first matcher call. `cursor` is `opts.cursor`,
        with 0 standing for an absent one. */
    constructor(rawChoices: seq<Val>, initial: Val, cursor: int, fallbackValue: Val)
      requires NoNullish(rawChoices)
      ensures Valid()
      ensures choices == NormalizeChoices(rawChoices).value
      ensures select == InitialSelect(rawChoices, initial, cursor)
      ensures suggestions == [] && value == Undefined
      ensures issued == 1 && completing == Some(1)
      ensures !done && !aborted && !exited && events == []
      ensures this.fallbackValue == fallbackValue
    {
      choices := NormalizeChoices(rawChoices).value;
      select := InitialSelect(rawChoices, initial, cursor);
      suggestions := [];
      value := Undefined;
      this.fallbackValue := fallbackValue;
      // the constructor's own call to complete()
      issued := 1;
      completing := Some(1);
      done, aborted, exited := false, false, false;
      events := [];
    }

    /** `moveSelect(i)`. */
    method MoveSelect(i: int)
      requires Valid()
      modifies this`select, this`value, this`events
      ensures Valid()
      ensures MovedBy(MoveResult(suggestions, old(select), i), old(select), old(value), old(events))
    {
      var len := |suggestions|;
      if len == 0 {
        return;
      }
      var idx := i;
      if 0 <= idx < len && IsDisabled(suggestions[idx]) {
        var dir := if idx > select then 1 else -1;
        // suggestions[idx] always exists here, so the loop test is its disabled flag
        while IsDisabled(suggestions[idx])
          invariant 0 <= idx < len
          invariant SkipFrom(suggestions, idx, dir) == SkipFrom(suggestions, i, dir)
          decreases if dir == 1 then len - idx else idx + 1
        {
          idx := idx + dir;
          if idx < 0 || idx >= len {
            events := events + [BellRung];
            return;
          }
        }
      }
      select := idx;
      value := ValueAt(suggestions, idx, fallbackValue);
      events := events + [Fired(value)];
    }

    /** Start a matcher call: its promise becomes `this.completing`. */
    method Issue() returns (t: nat)
      requires Valid()
      modifies this`issued, this`completing
      ensures Valid()
      ensures t == old(issued) + 1 && issued == t && completing == Some(t)
    {
      issued := issued + 1;
      completing := Some(issued);
      t := issued;
    }

    /** The matcher call `t` settles with `results` (the rest of `complete`). */
    method Resolve(t: nat, results: seq<Val>)
      requires Valid()
      modifies this
      ensures Valid()
      // a superseded or already applied call changes nothing at all
      ensures old(completing) != Some(t) ==> unchanged(this)
      ensures t != old(issued) ==> unchanged(this)
      // a result with a null/undefined entry throws inside map before anything is assigned
      ensures !NoNullish(results) ==> unchanged(this)
      // otherwise: the list is replaced, the call is cleared and the selection re-clamped
      ensures old(completing) == Some(t) && NoNullish(results) ==>
        suggestions == NormalizeSuggestions(results).value && completing == None &&
        MovedBy(MoveResult(suggestions, old(select), ClampTarget(old(select), |suggestions|)),
                old(select), old(value), old(events))
      ensures choices == old(choices) && issued == old(issued)
      ensures done == old(done) && aborted == old(aborted) && exited == old(exited)
    {
      if completing != Some(t) {
        return;
      }
      var normalized := NormalizeSuggestions(results);
      if normalized.None? {
        return;
      }
      suggestions := normalized.value;
      completing := None;
      MoveSelect(ClampTarget(select, |suggestions|));
    }

    /** `submit()`: refused with the bell on a disabled selection, otherwise the
        prompt is done. */
    method Submit()
      requires Valid()
      modifies this`done, this`aborted, this`exited, this`events
      ensures Valid()
      ensures SubmitBlocked(suggestions, select) ==>
        done == old(done) && aborted == old(aborted) && exited == old(exited) &&
        events == old(events) + [BellRung]
      ensures !SubmitBlocked(suggestions, select) ==>
        done && !aborted && !exited && events == old(events) + [Fired(value)]
    {
      if 0 <= select < |suggestions| && IsDisabled(suggestions[select]) {
        events := events + [BellRung];
        return;
      }
      done := true;
      aborted, exited := false, false;
      events := events + [Fired(value)];
    }

    /** `up()`. */
    method Up()
      requires Valid()
      modifies this`select, this`value, this`events
      ensures Valid()
      ensures MovedBy(MoveResult(suggestions, old(select), UpTarget(old(select), |suggestions|)),
                      old(select), old(value), old(events))
      ensures old(SelectionOk(suggestions, select)) ==> SelectionOk(suggestions, select)
    {
      if |suggestions| > 0 && SelectionOk(suggestions, select) {
        NavigationKeepsSelection(suggestions, select, UpTarget(select, |suggestions|));
      }
      MoveSelect(UpTarget(select, |suggestions|));
    }

    /** `down()`. */
    method Down()
      requires Valid()
      modifies this`select, this`value, this`events
      ensures Valid()
      ensures MovedBy(MoveResult(suggestions, old(select), DownTarget(old(select), |suggestions|)),
                      old(select), old(value), old(events))
      ensures old(SelectionOk(suggestions, select)) ==> SelectionOk(suggestions, select)
    {
      if |suggestions| > 0 && SelectionOk(suggestions, select) {
        NavigationKeepsSelection(suggestions, select, DownTarget(select, |suggestions|));
      }
      MoveSelect(DownTarget(select, |suggestions|));
    }

    /** `next()` is `down()`. */
    method Next()
      requires Valid()
      modifies this`select, this`value, this`events
      ensures Valid()
      ensures MovedBy(MoveResult(suggestions, old(select), DownTarget(old(select), |suggestions|)),
                      old(select), old(value), old(events))
      ensures old(SelectionOk(suggestions, select)) ==> SelectionOk(suggestions, select)
    {
      Down();
    }

    /** `first()`. */
    method First()
      requires Valid()
      modifies this`select, this`value, this`events
      ensures Valid()
      ensures MovedBy(MoveResult(suggestions, old(select), 0), old(select), old(value), old(events))
      ensures old(SelectionOk(suggestions, select)) ==> SelectionOk(suggestions, select)
    {
      if |suggestions| > 0 && SelectionOk(suggestions, select) {
        NavigationKeepsSelection(suggestions, select, 0);
      }
      MoveSelect(0);
    }

    /** `last()`: targets `this.suggestions.length - 1`. */
    method Last()
      requires Valid()
      modifies this`select, this`value, this`events
      ensures Valid()
      ensures MovedBy(MoveResult(suggestions, old(select), |suggestions| - 1),
                      old(select), old(value), old(events))
      ensures old(SelectionOk(suggestions, select)) ==> SelectionOk(suggestions, select)
    {
      if |suggestions| > 0 && SelectionOk(suggestions, select) {
        NavigationKeepsSelection(suggestions, select, |suggestions| - 1);
      }
      MoveSelect(|suggestions| - 1);
    }
  }

  /** `submit()` refuses exactly when the selected suggestion exists and is disabled. */
  predicate SubmitBlocked(s: seq<Candidate>, select: int) {
    0 <= select < |s| && IsDisabled(s[select])
  }

  /** The constructor's `this.initial || opts.cursor || 0`: a number `initial` is
      taken as it is, anything else is looked up among the raw choices; 0 and
      "not found" are both falsy and give way to the cursor. */
  function InitialSelect(raw: seq<Val>, initial: Val, cursor: int): (r: int)
    requires NoNullish(raw)
    // a non-zero numeric initial wins
    ensures initial.Num? && initial.n != 0 ==> r == initial.n
    // a value or title found at a non-zero index wins
    ensures !initial.Num? && GetIndex(raw, initial).Found? && GetIndex(raw, initial).index != 0 ==>
      r == GetIndex(raw, initial).index
    // an initial of 0, a match at index 0, or no match at all falls back to the cursor
    ensures (initial == Num(0) || (!initial.Num? && !(GetIndex(raw, initial).Found? && GetIndex(raw, initial).index != 0))) ==>
      r == cursor
  {
    var init: Val :=
      if initial.Num? then initial
      else match GetIndex(raw, initial)
        case Found(i) => Num(i)
        case NotFound => Undefined
        case Threw => assert false; Undefined;
    if Truthy(init) then init.n else cursor
  }

  /** A slow first matcher call cannot overwrite the result of a newer one: call
      A is issued, then call B; B settles, then A. The list is B's, and A's late
      result changes nothing. */
  method RaceScenario(raw: seq<Val>, resultsA: seq<Val>, resultsB: seq<Val>) returns (final: seq<Candidate>)
    requires NoNullish(raw) && NoNullish(resultsB)
    ensures final == NormalizeSuggestions(resultsB).value
  {
    var p := new AutocompletePrompt(raw, Undefined, 0, Undefined);
    var a := p.Issue();
    var b := p.Issue();
    p.Resolve(b, resultsB);
    var afterB := p.suggestions;
    p.Resolve(a, resultsA);
    assert p.suggestions == afterB;
    final := p.suggestions;
  }
}
