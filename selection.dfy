/**
  The selection rules of the autocomplete prompt, as functions of the
  suggestion list: where `moveSelect(i)` lands (or why it does not), the
  targets `up`, `down`, `first` and `last` hand to it, and the re-clamp target
  `complete` uses after a new list arrives.
 */
module Selection {
  import opened JsValues
  import opened Candidates

  /** What one `moveSelect` call does: nothing (empty list), ring the bell
      (the disabled-skip walk left the list), or commit an index. */
  datatype Move = Idle | Bell | Commit(index: int)

  /** Walk direction: `idx > this.select ? 1 : -1`, so a target equal to the
      current selection walks backwards. */
  function Dir(target: int, select: int): (d: int)
    ensures d == 1 || d == -1
    ensures d == 1 <==> target > select
  {
    if target > select then 1 else -1
  }

  /** Every entry from `from` to the end of the list in direction `dir`
      (inclusive) is disabled. */
  ghost predicate DisabledRun(s: seq<Candidate>, from: int, dir: int) {
    if dir == 1 then forall k :: from <= k < |s| && 0 <= k ==> IsDisabled(s[k])
    else forall k :: 0 <= k <= from && k < |s| ==> IsDisabled(s[k])
  }

  /** Every entry strictly between `from` and `to`, `from` included, is disabled. */
  ghost predicate DisabledBetween(s: seq<Candidate>, from: int, to: int) {
    if from <= to then forall k :: from <= k < to && 0 <= k < |s| ==> IsDisabled(s[k])
    else forall k :: to < k <= from && 0 <= k < |s| ==> IsDisabled(s[k])
  }

  /** The disabled-skip walk of `moveSelect`, started on index `idx`: step in
      direction `dir` until an enabled entry, or `None` once the walk leaves
      the list. */
  function SkipFrom(s: seq<Candidate>, idx: int, dir: int): (r: Option<int>)
    requires 0 <= idx < |s| && (dir == 1 || dir == -1)
    decreases if dir == 1 then |s| - idx else idx + 1
    // it finds the nearest enabled entry in direction dir, counting idx itself
    ensures r.Some? ==>
      0 <= r.value < |s| && !IsDisabled(s[r.value]) &&
      (if dir == 1 then idx <= r.value else r.value <= idx) &&
      DisabledBetween(s, idx, r.value)
    // and fails exactly when there is none
    ensures r.None? <==> DisabledRun(s, idx, dir)
  {
    if !IsDisabled(s[idx]) then Some(idx)
    else if idx + dir < 0 || idx + dir >= |s| then None
    else SkipFrom(s, idx + dir, dir)
  }

  /** `moveSelect(target)` with the current selection `select`. A target that is
      outside the list, or enabled, is committed as it is; only an in-range
      disabled target starts the walk. */
  function MoveResult(s: seq<Candidate>, select: int, target: int): (r: Move)
    // nothing at all happens on an empty list
    ensures r == Idle <==> |s| == 0
    // the bell rings exactly when the walk from a disabled target leaves the list
    ensures r == Bell <==>
      |s| > 0 && 0 <= target < |s| && DisabledRun(s, target, Dir(target, select))
    // a committed in-range target is never a disabled entry
    ensures r.Commit? && 0 <= target < |s| ==>
      0 <= r.index < |s| && !IsDisabled(s[r.index])
    // an out-of-range target, or an in-range enabled one, is committed unchanged
    ensures r.Commit? && !(0 <= target < |s|) ==> r.index == target
    ensures |s| > 0 && 0 <= target < |s| && !IsDisabled(s[target]) ==> r == Commit(target)
    // from a disabled target the commit is the nearest enabled entry beyond it in the
    // walk direction (forwards only when the target is past the current selection)
    ensures r.Commit? && 0 <= target < |s| && IsDisabled(s[target]) ==>
      (target > select ==> target < r.index) &&
      (target <= select ==> r.index < target) &&
      DisabledBetween(s, target, r.index)
  {
    if |s| == 0 then Idle
    else if 0 <= target < |s| && IsDisabled(s[target]) then
      match SkipFrom(s, target, Dir(target, select))
      case None => Bell
      case Some(j) => Commit(j)
    else Commit(target)
  }

  /** If every entry is disabled, every move to an in-range target rings the bell. */
  lemma AllDisabledBells(s: seq<Candidate>, select: int, target: int)
    requires forall k :: 0 <= k < |s| ==> IsDisabled(s[k])
    requires 0 <= target < |s|
    ensures MoveResult(s, select, target) == Bell
  {
  }

  /** `value` after a commit: `this.suggestions[idx]?.value ?? this.fallback.value`. */
  function ValueAt(s: seq<Candidate>, idx: int, fallback: Val): (v: Val)
    ensures 0 <= idx < |s| && !Nullish(s[idx].value) ==> v == s[idx].value
    ensures 0 <= idx < |s| && Nullish(s[idx].value) ==> v == fallback
    ensures !(0 <= idx < |s|) ==> v == fallback
  {
    if 0 <= idx < |s| && !Nullish(s[idx].value) then s[idx].value else fallback
  }

  /** Over a list the matcher produced, the fallback only stands in for an
      index outside the list: every suggestion carries its own value. */
  lemma ValueFromSuggestion(results: seq<Val>, idx: int, fallback: Val)
    requires NoNullish(results)
    requires 0 <= idx < |results|
    ensures ValueAt(NormalizeSuggestions(results).value, idx, fallback) ==
            NormalizeSuggestions(results).value[idx].value
  {
  }

  /** The selection is in range and on an enabled entry (vacuous on an empty list). */
  ghost predicate SelectionOk(s: seq<Candidate>, select: int) {
    |s| > 0 ==> 0 <= select < |s| && !IsDisabled(s[select])
  }

  /** `down()`: `select === len - 1 ? 0 : select + 1`. */
  function DownTarget(select: int, len: int): (t: int)
    // from a selection inside the list the target is inside the list,
    ensures 0 <= select < len ==> 0 <= t < len
    // it wraps from the last entry to the first
    ensures 0 <= select < len ==> (t == 0 <==> select == len - 1)
    // and otherwise moves on by one
    ensures 0 <= select < len - 1 ==> t == select + 1
  {
    if select == len - 1 then 0 else select + 1
  }

  /** `up()`: `select === 0 ? len - 1 : select - 1`. */
  function UpTarget(select: int, len: int): (t: int)
    ensures 0 <= select < len ==> 0 <= t < len
    ensures 0 <= select < len ==> (t == len - 1 <==> select == 0)
    ensures 0 < select < len ==> t == select - 1
  {
    if select == 0 then len - 1 else select - 1
  }

  /** Navigation from a valid selection keeps it valid: the move either rings
      the bell and leaves the selection alone, or commits an enabled entry. */
  lemma NavigationKeepsSelection(s: seq<Candidate>, select: int, target: int)
    requires SelectionOk(s, select) && |s| > 0
    requires 0 <= target < |s|
    ensures MoveResult(s, select, target) == Bell ||
      (MoveResult(s, select, target).Commit? && SelectionOk(s, MoveResult(s, select, target).index))
  {
  }

  /** Wrapping `down()` from the last entry onto a disabled first entry fails:
      the target 0 is below the selection, so the walk heads out of the list. */
  lemma WrapDownOntoDisabledBells(s: seq<Candidate>)
    requires |s| > 0 && IsDisabled(s[0])
    ensures MoveResult(s, |s| - 1, DownTarget(|s| - 1, |s|)) == Bell
  {
  }

  /** Wrapping `up()` from the first entry onto a disabled last entry fails the same way. */
  lemma WrapUpOntoDisabledBells(s: seq<Candidate>)
    requires |s| > 0 && IsDisabled(s[|s| - 1])
    ensures MoveResult(s, 0, UpTarget(0, |s|)) == Bell
  {
  }

  /** `first()` onto a disabled first entry fails from any selection at or past
      it: the walk direction is backwards, out of the list. */
  lemma FirstOntoDisabledBells(s: seq<Candidate>, select: int)
    requires |s| > 0 && IsDisabled(s[0]) && select >= 0
    ensures MoveResult(s, select, 0) == Bell
  {
  }

  /** `last()` onto a disabled last entry fails from any selection before it:
      the walk direction is forwards, out of the list. */
  lemma LastOntoDisabledBells(s: seq<Candidate>, select: int)
    requires |s| > 0 && IsDisabled(s[|s| - 1]) && select < |s| - 1
    ensures MoveResult(s, select, |s| - 1) == Bell
  {
  }

  /** Choices `[A, B (disabled), C]` with A selected: `down()` skips B and lands
      on C, and a further `down()` wraps round to A. */
  lemma DownSkipsThenWraps(a: Candidate, b: Candidate, c: Candidate)
    requires !IsDisabled(a) && IsDisabled(b) && !IsDisabled(c)
    ensures MoveResult([a, b, c], 0, DownTarget(0, 3)) == Commit(2)
    ensures MoveResult([a, b, c], 2, DownTarget(2, 3)) == Commit(0)
  {
    var s := [a, b, c];
    assert SkipFrom(s, 1, 1) == SkipFrom(s, 2, 1);
  }

  /** The re-clamp target of `complete`: `Math.min(Math.max(len - 1, 0), select)`. */
  function ClampTarget(select: int, len: int): (t: int)
    ensures t <= select
    ensures len > 0 && select >= 0 ==> 0 <= t < len
    ensures 0 <= select < len ==> t == select
    // a selection past the end of a non-empty list clamps to its last index
    ensures len > 0 && select >= len ==> t == len - 1
    // a negative selection is left as it is
    ensures select < 0 ==> t == select
  {
    var l := if len - 1 > 0 then len - 1 else 0;
    if l < select then l else select
  }

  /** Re-clamping after a new list arrives never moves the selection forward,
      keeps it on an in-range enabled target, commits inside the list whenever
      the old selection was not negative, and on a list that shrank below the
      selection commits its last entry when that entry is enabled. */
  lemma ClampNeverIncreases(s: seq<Candidate>, select: int)
    ensures var m := MoveResult(s, select, ClampTarget(select, |s|));
      (m.Commit? ==> m.index <= select) &&
      (m.Commit? && select >= 0 ==> 0 <= m.index < |s| && !IsDisabled(s[m.index])) &&
      (|s| > 0 && select >= 0 && !IsDisabled(s[ClampTarget(select, |s|)]) ==>
         m == Commit(ClampTarget(select, |s|))) &&
      (|s| > 0 && select >= |s| && !IsDisabled(s[|s| - 1]) ==> m == Commit(|s| - 1))
  {
  }

}
