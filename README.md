# Autocomplete prompt: selection and suggestion state machine

This project is a Dafny model of the core of the autocomplete prompt in
`lib/elements/autocomplete.js`. As the operator types, a user-supplied matcher
produces a candidate list. The prompt normalises that list and keeps a
selection index into it. Navigation skips disabled entries. Submitting on a
disabled entry is refused. A matcher result that a newer call has superseded
is dropped.

The model has four modules:

- `JsValues` (`js_values.dfy`) covers the JavaScript values the prompt touches:
  `undefined`, `null`, booleans, integers, strings, and records with the four
  choice fields. It defines the nullish test behind `??`, truthiness behind
  `||`/`&&`, property access and `===`. An object carries an identity, which is
  what `===` compares.
- `Candidates` (`candidates.dfy`) holds the two normalisers. The constructor's
  normaliser uses `??` precedence. The matcher-result normaliser is built on
  `getTitle`/`getVal` and uses `||` precedence. The module also has the
  `getIndex` first-match search. Reading a property of `null`/`undefined`
  throws in JavaScript; that is `None` (normalisers) or `Threw` (`getIndex`).
- `Selection` (`selection.dfy`) states, as functions of the suggestion list,
  what `moveSelect` does. `MoveResult` is one of three outcomes: nothing
  happens, the bell rings, or an index is committed. The module also gives the
  targets of `up`/`down`/`first`/`last` and the re-clamp target of `complete`,
  with the lemmas about them.
- `Autocomplete` (`autocomplete.dfy`) has the class `AutocompletePrompt`, whose
  methods update `select`, `value`, `suggestions`, `completing`, `done`,
  `aborted` and `exited` as the source does. Each method is proved against the
  `Selection` functions. The asynchronous `complete` is split in two:
  - `Issue` makes a new token current, standing for the object that
    `this.completing = this.suggest(...)` stores.
  - `Resolve(t, results)` applies `results` only while `t` is still current.

  Bells and fired events are recorded in a ghost event log.

Behaviours of the code that a reader might not expect (the model follows the
code as written):

- `moveSelect` on an empty list returns silently. It does not ring the bell.
- When the target equals the current selection, the disabled-skip walk goes
  backwards (`idx > this.select ? 1 : -1`), not forwards.
- `first()` and `last()` do not skip a leading or trailing disabled run inward.
  `first()` from any selection at or past 0 walks backwards, out of the list,
  and rings the bell. `last()` from before the last index walks forwards and
  rings the bell. See `FirstOntoDisabledBells` and `LastOntoDisabledBells`.
- After a resolution with an empty list, the selection is left as it was. It is
  not reset to 0. With a non-empty list the re-clamp goes through
  `moveSelect`. A disabled clamp target can therefore move the selection
  further towards index 0, or ring the bell and leave it unchanged (possibly on a disabled
  entry, or past the end).
- An out-of-range target that is not disabled is committed as it is, and its
  value comes from the fallback.

## Model

| member | source | states |
|---|---|---|
| `Candidates.NormalizeChoice` | lib/elements/autocomplete.js:20-25 | title and value are never nullish; a present field is kept even when falsy (only null/undefined fall through); a missing title mirrors the value and vice versa; a primitive stands for itself; description is copied; disabled defaults to false |
| `Candidates.NormalizeChoices` | lib/elements/autocomplete.js:20-25 | succeeds exactly when no choice is null/undefined, keeping length and order, entry by entry |
| `Candidates.GetVal` | lib/elements/autocomplete.js:8 | undefined outside the array; a falsy entry comes back unchanged; a truthy entry yields the first truthy of its value, its title, and itself |
| `Candidates.GetTitle` | lib/elements/autocomplete.js:9 | as `GetVal`, with title tried before value |
| `Candidates.NormalizeSuggestions` | lib/elements/autocomplete.js:81-86 | the matcher result replaces the list wholesale, with the same length and order; it fails (the map throws) exactly when an entry is null/undefined |
| `Candidates.SuggestionsWellFormed` | lib/elements/autocomplete.js:81-86 | every normalised suggestion has a non-nullish title and value, its entry's description, and is disabled exactly when its entry's `disabled` is truthy |
| `Candidates.FalsyValueFallsThrough` | lib/elements/autocomplete.js:8-25 | the two normalisers differ on a falsy value: nullish coalescing keeps `0`, logical or replaces it by the title |
| `Candidates.FindIndexFrom` | lib/elements/autocomplete.js:11 | `findIndex` returns the first index whose value or title is strictly equal to the key, with every earlier entry readable and not matching; not found means none matches; it throws only on a null/undefined entry reached before any match |
| `Candidates.GetIndex` | lib/elements/autocomplete.js:10-13 | first strict match of value or title, or undefined when none; never throws on readable entries |
| `Candidates.GetIndexFirstMatch` | lib/elements/autocomplete.js:10-13 | whenever some entry matches, the search finds a match at or before it |
| `Selection.Dir` | lib/elements/autocomplete.js:62 | the walk goes forwards exactly when the target is past the current selection, otherwise backwards |
| `Selection.SkipFrom` | lib/elements/autocomplete.js:63-66 | the walk stops on the nearest enabled entry in its direction, with only disabled entries passed; it leaves the list exactly when every entry from the start to that end is disabled |
| `Selection.MoveResult` | lib/elements/autocomplete.js:54-72 | nothing happens exactly on an empty list; the bell rings exactly when the walk from an in-range disabled target leaves the list; an in-range enabled target and an out-of-range target are committed unchanged; from a disabled target the commit is the nearest enabled entry beyond it in the walk direction (forwards only when the target is past the selection), with only disabled entries between, so an in-range commit is never disabled |
| `Selection.AllDisabledBells` | lib/elements/autocomplete.js:61-65 | on an all-disabled list every in-range move rings the bell |
| `Selection.ValueAt` | lib/elements/autocomplete.js:70 | the committed value is the suggestion's own value when it is not nullish, and the fallback's value when it is nullish or the index is outside the list |
| `Selection.ValueFromSuggestion` | lib/elements/autocomplete.js:70-86 | over a list the matcher produced, an in-range commit always takes the suggestion's own value |
| `Selection.DownTarget` | lib/elements/autocomplete.js:119-124 | from an in-range selection the target is in range, is 0 exactly from the last index, and otherwise is the next index |
| `Selection.UpTarget` | lib/elements/autocomplete.js:112-117 | from an in-range selection the target is in range, is the last index exactly from 0, and otherwise is the previous index |
| `Selection.NavigationKeepsSelection` | lib/elements/autocomplete.js:112-128 | from an in-range enabled selection, a move to an in-range target rings the bell or commits an in-range enabled entry |
| `Selection.WrapDownOntoDisabledBells` | lib/elements/autocomplete.js:119-124 | `down()` from the last entry onto a disabled first entry rings the bell |
| `Selection.WrapUpOntoDisabledBells` | lib/elements/autocomplete.js:112-117 | `up()` from the first entry onto a disabled last entry rings the bell |
| `Selection.FirstOntoDisabledBells` | lib/elements/autocomplete.js:127 | `first()` onto a disabled first entry rings the bell from any selection at or past 0 |
| `Selection.LastOntoDisabledBells` | lib/elements/autocomplete.js:128 | `last()` onto a disabled last entry rings the bell from any selection before it |
| `Selection.DownSkipsThenWraps` | lib/elements/autocomplete.js:119-124 | on `[A, B disabled, C]` from A, `down()` lands on C, and again wraps to A |
| `Selection.ClampTarget` | lib/elements/autocomplete.js:89-90 | the re-clamp target never exceeds the selection; it equals an in-range selection, is the last index when the selection is past the end of a non-empty list, and leaves a negative selection as it is |
| `Selection.ClampNeverIncreases` | lib/elements/autocomplete.js:88-90 | re-clamping never moves the selection forward; from a non-negative selection any commit is an in-range enabled entry; an enabled clamp target is committed as it is; after a shrink below the selection an enabled last entry is committed |
| `Autocomplete.InitialSelect` | lib/elements/autocomplete.js:29-33 | a non-zero number wins; else a value/title match at a non-zero index wins; an initial of 0, a match at 0, or no match gives way to the cursor |
| `Autocomplete.AutocompletePrompt.constructor` | lib/elements/autocomplete.js:16-51 | choices normalised, initial selection chosen, empty suggestion list, and the first matcher call issued as the current token |
| `Autocomplete.AutocompletePrompt.MoveSelect` | lib/elements/autocomplete.js:54-72 | `select`, `value` and the event log change exactly as `MoveResult` says, and nothing else changes |
| `Autocomplete.AutocompletePrompt.Issue` | lib/elements/autocomplete.js:76 | a fresh token, newer than all earlier ones, becomes the only current one |
| `Autocomplete.AutocompletePrompt.Resolve` | lib/elements/autocomplete.js:77-90 | a stale or already applied token, or a result with a null/undefined entry, changes nothing at all; otherwise the list is replaced, the token cleared, and the selection re-clamped as `MoveResult` says for the clamp target |
| `Autocomplete.AutocompletePrompt.Submit` | lib/elements/autocomplete.js:96-109 | on an existing disabled selection only the bell rings; otherwise done is set, aborted and exited are cleared, and an event is fired |
| `Autocomplete.AutocompletePrompt.Up` | lib/elements/autocomplete.js:112-117 | moves as `MoveResult` says for the up target, and keeps a valid selection valid |
| `Autocomplete.AutocompletePrompt.Down` | lib/elements/autocomplete.js:119-124 | moves as `MoveResult` says for the down target, and keeps a valid selection valid |
| `Autocomplete.AutocompletePrompt.Next` | lib/elements/autocomplete.js:126 | behaves as `down()` |
| `Autocomplete.AutocompletePrompt.First` | lib/elements/autocomplete.js:127 | moves as `MoveResult` says for target 0, and keeps a valid selection valid |
| `Autocomplete.AutocompletePrompt.Last` | lib/elements/autocomplete.js:128 | moves as `MoveResult` says for the target `length - 1`, and keeps a valid selection valid |
| `Autocomplete.RaceScenario` | lib/elements/autocomplete.js:76-79 | calls A then B are issued, B settles, then A: the final list is B's result |

## Left out

- Rendering is not part of this model: `render`, `renderOption`, the viewport
  computed by `entriesToDisplay` (from `../util`, not part of this model), colours,
  escape sequences and terminal width. The `render()` calls at the end of
  `submit`, `up`, `down`, `first` and `last`, and the callback `cb` in
  `complete`, are dropped with it.
- The base prompt (`./prompt`) is not part of this model. `bell()` and `fire()`
  appear only as entries in a ghost event log. `close()`, `out.write` and the
  `closed`/`firstRender` flags are not modelled, and neither are `abort`/`exit`,
  which set `aborted`/`exited` from outside.
- The matcher `suggest` is opaque. Its result is the `results` argument of
  `Resolve`, and the input text and choices it receives are not modelled.
  Promise scheduling and a matcher that rejects are left out; only the token
  comparison is modelled.
- `style.render`, the input transform, `warn`, `i18n.noMatches`, `clearFirst`,
  `limit` and `this.clear` only feed rendering and are left out.
- `this.fallback` (`opts.fallback || this.initial`) is given to the constructor
  as the value its `.value` would read. Property reads on a numeric or missing
  fallback are not modelled.
- JavaScript numbers are integers here. Fractions, `NaN` and `Infinity` are
  not modelled, and `opts.cursor` is taken to be a number or absent (0).
- Autocomplete.AutocompletePrompt.constructor: requires that no raw choice is
  null or undefined. With such a choice the source's constructor throws a
  TypeError. That path is captured by `NormalizeChoices` returning `None`,
  not by the class.
- Autocomplete.AutocompletePrompt.Issue: every call gets a new token, distinct
  from all earlier ones. In the source the token is whatever object the matcher
  returns, compared with `!==`. A matcher that hands back the same object twice
  (a memoised promise, say) makes two calls indistinguishable there, so a
  superseded result would be applied. The model does not capture that case.
