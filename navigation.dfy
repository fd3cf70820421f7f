/** Keyboard navigation: Escape returns focus to the first navigation button;
    an arrow key pressed on a card moves focus to the neighbouring card of the
    grid, clamped to the first and the last card (no wrap-around). */
module Navigation {
  import opened Wrappers

  /** `navigateGrid`'s new index for card `current` of `count` cards laid out in
      `columns` columns. */
  function NewIndex(key: string, current: int, count: int, columns: int): (next: int)
    requires 0 <= current < count && columns >= 1
    ensures 0 <= next < count
    ensures key == "ArrowRight" ==> next == current + 1 || (current == count - 1 && next == current)
    ensures key == "ArrowLeft" ==> next == current - 1 || (current == 0 && next == current)
    ensures key == "ArrowDown" ==> next == current + columns || (current + columns >= count && next == count - 1)
    ensures key == "ArrowUp" ==> next == current - columns || (current - columns < 0 && next == 0)
    ensures key !in {"ArrowRight", "ArrowLeft", "ArrowDown", "ArrowUp"} ==> next == current
  {
    if key == "ArrowRight" then Min(current + 1, count - 1)
    else if key == "ArrowLeft" then Max(current - 1, 0)
    else if key == "ArrowDown" then Min(current + columns, count - 1)
    else if key == "ArrowUp" then Max(current - columns, 0)
    else current
  }

  function Min(a: int, b: int): int { if a <= b then a else b }

  function Max(a: int, b: int): int { if a >= b then a else b }

  /** The card `navigateGrid` focuses, if focus moves at all: it moves exactly
      when the new index differs from the current one. */
  function NavigateGrid(key: string, current: int, count: int, columns: int): (moved: Option<int>)
    requires 0 <= current < count && columns >= 1
    ensures moved.Some? ==> moved.value != current && moved.value == NewIndex(key, current, count, columns)
    ensures moved.None? ==> NewIndex(key, current, count, columns) == current
  {
    var next := NewIndex(key, current, count, columns);
    if next != current then Some(next) else None
  }

  /** Focus stays put exactly on the boundary the key points at, or for a key
      that is not one of the four arrows. */
  lemma {:induction false} StaysIffAtBoundary(key: string, current: int, count: int, columns: int)
    requires 0 <= current < count && columns >= 1
    ensures NavigateGrid(key, current, count, columns).None? <==>
            || ((key == "ArrowRight" || key == "ArrowDown") && current == count - 1)
            || ((key == "ArrowLeft" || key == "ArrowUp") && current == 0)
            || key !in {"ArrowRight", "ArrowLeft", "ArrowDown", "ArrowUp"}
  {
    var next := NewIndex(key, current, count, columns);
    if key == "ArrowDown" && current < count - 1 {
      assert next > current;
    }
    if key == "ArrowUp" && current > 0 {
      assert next < current;
    }
  }

  /** Left undoes Right and Right undoes Left, away from the ends. */
  lemma {:induction false} HorizontalInverse(current: int, count: int, columns: int)
    requires 0 <= current < count && columns >= 1
    ensures current < count - 1 ==> NewIndex("ArrowLeft", NewIndex("ArrowRight", current, count, columns), count, columns) == current
    ensures current > 0 ==> NewIndex("ArrowRight", NewIndex("ArrowLeft", current, count, columns), count, columns) == current
  {
  }

  /** Up undoes Down when the row below has a card in the same column, and
      Down undoes Up when there is a row above. */
  lemma {:induction false} VerticalInverse(current: int, count: int, columns: int)
    requires 0 <= current < count && columns >= 1
    ensures current + columns < count ==> NewIndex("ArrowUp", NewIndex("ArrowDown", current, count, columns), count, columns) == current
    ensures current - columns >= 0 ==> NewIndex("ArrowDown", NewIndex("ArrowUp", current, count, columns), count, columns) == current
  {
  }

  /** Down from a card with no card below it in its column lands on the last
      card, not on the card itself: with six cards in three columns, Down goes
      0 to 3 and then 3 to 5. */
  lemma DownFromLastRow(current: int, count: int, columns: int)
    requires 0 <= current < count && columns >= 1 && current + columns >= count
    ensures NewIndex("ArrowDown", current, count, columns) == count - 1
    ensures NewIndex("ArrowDown", 0, 6, 3) == 3 && NewIndex("ArrowDown", 3, 6, 3) == 5
  {
  }

  /** Where focus is when a key goes down. */
  datatype Focused = OnCard(index: int, count: int, columns: int) | Elsewhere

  datatype FocusTarget = FirstNavButton | Card(index: int)

  predicate StartsWithArrow(key: string) {
    |key| >= 5 && key[..5] == "Arrow"
  }

  predicate WellPlaced(f: Focused) {
    f.OnCard? ==> 0 <= f.index < f.count && f.columns >= 1
  }

  /** `handleKeyboardNavigation`: where focus goes, if anywhere. */
  function HandleKey(key: string, focused: Focused, hasNavButton: bool): (target: Option<FocusTarget>)
    requires WellPlaced(focused)
    ensures key == "Escape" ==> target == (if hasNavButton then Some(FirstNavButton) else None)
    ensures focused.OnCard? && StartsWithArrow(key) ==>
              target == (var m := NavigateGrid(key, focused.index, focused.count, focused.columns);
                         if m.Some? then Some(Card(m.value)) else None)
    ensures target.Some? && target.value.Card? ==>
              focused.OnCard? && StartsWithArrow(key)
              && Some(target.value.index) == NavigateGrid(key, focused.index, focused.count, focused.columns)
    ensures !StartsWithArrow(key) && key != "Escape" ==> target == None
    ensures focused.Elsewhere? && key != "Escape" ==> target == None
  {
    assert "Escape"[..5] == "Escap" != "Arrow";
    if key == "Escape" then
      if hasNavButton then Some(FirstNavButton) else None
    else if StartsWithArrow(key) && focused.OnCard? then
      match NavigateGrid(key, focused.index, focused.count, focused.columns)
      case Some(i) => Some(Card(i))
      case None => None
    else
      None
  }

  /** An arrow key always keeps focus inside the grid it started in. */
  lemma {:induction false} ArrowStaysInGrid(key: string, focused: Focused, hasNavButton: bool)
    requires WellPlaced(focused) && focused.OnCard? && StartsWithArrow(key)
    ensures var t := HandleKey(key, focused, hasNavButton);
            t.Some? ==> t.value.Card? && 0 <= t.value.index < focused.count && t.value.index != focused.index
  {
    assert "Escape"[..5] == "Escap" != "Arrow";
  }
}
