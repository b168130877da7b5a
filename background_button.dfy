/**
 * The background button (js/components/backgroundButt.js): each click asks the
 * theme switcher for the next theme of its own list and advances a cursor.
 */
module BackgroundButton {
  import opened Wrappers
  import Themes

  /** A JavaScript number used as the cursor: an index, or NaN once `% 0` has been taken. */
  datatype Cursor = Index(n: nat) | NotANumber

  /** What a click does: nothing when no switcher is loaded, otherwise the argument passed to it. */
  datatype ClickEffect = SwitcherMissing | Requested(themeName: Option<string>)

  /** The schema default for `themes`. */
  const DefaultThemes: seq<string> := ["night", "starry"]

  /** `themes[cursor]`: undefined past the end or at NaN. */
  function ThemeAt(themes: seq<string>, cursor: Cursor): (name: Option<string>)
    ensures name.Some? <==> cursor.Index? && cursor.n < |themes|
    ensures name.Some? ==> name.value == themes[cursor.n]
  {
    if cursor.Index? && cursor.n < |themes| then Some(themes[cursor.n]) else None
  }

  /** `(cursor + 1) % themes.length`, NaN for an empty list. */
  function Advance(cursor: Cursor, count: nat): (next: Cursor)
    ensures next.NotANumber? <==> cursor.NotANumber? || count == 0
    ensures next.Index? ==> next.n < count
    ensures next.Index? && cursor.n + 1 < count ==> next.n == cursor.n + 1
    ensures next.Index? && cursor.n + 1 == count ==> next.n == 0
  {
    if cursor.NotANumber? || count == 0 then NotANumber else Index((cursor.n + 1) % count)
  }

  /** The cursor after `clicks` successful clicks from the initial 0. */
  function CursorAfter(count: nat, clicks: nat): Cursor
  {
    if clicks == 0 then Index(0) else Advance(CursorAfter(count, clicks - 1), count)
  }

  lemma MulAtLeast(c: nat, x: int)
    requires c > 0 && x >= 1
    ensures c * x >= c
  {
  }

  /** The remainder is determined by any quotient/remainder decomposition. */
  lemma ModUnique(a: int, c: nat, q: int, r: int)
    requires c > 0 && 0 <= r < c && a == c * q + r
    ensures a % c == r
  {
    var x := q - a / c;
    assert c * x == a % c - r;
    if x >= 1 {
      MulAtLeast(c, x);
    } else if x <= -1 {
      MulAtLeast(c, -x);
    }
  }

  /** One more step of a counter modulo `count`. */
  lemma ModSucc(k: nat, count: nat)
    requires count > 0
    ensures (k % count + 1) % count == (k + 1) % count
  {
    var q, r := k / count, k % count;
    if r + 1 < count {
      ModUnique(k + 1, count, q, r + 1);
      ModUnique(r + 1, count, 0, r + 1);
    } else {
      ModUnique(k + 1, count, q + 1, 0);
      ModUnique(r + 1, count, 1, 0);
    }
  }

  /** With a non-empty list the cursor is the click count modulo the list length, so it stays in range. */
  lemma {:induction false} CursorAfterIsModulo(count: nat, clicks: nat)
    requires count > 0
    ensures CursorAfter(count, clicks) == Index(clicks % count)
    ensures CursorAfter(count, clicks).n < count
  {
    if clicks > 0 {
      CursorAfterIsModulo(count, clicks - 1);
      var k := (clicks - 1) % count;
      assert CursorAfter(count, clicks) == Advance(Index(k), count) == Index((k + 1) % count);
      ModSucc(clicks - 1, count);
      assert (k + 1) % count == clicks % count;
    }
  }

  /** With an empty list the first click already turns the cursor into NaN. */
  lemma {:induction false} EmptyListCursor(clicks: nat)
    ensures CursorAfter(0, clicks) == if clicks == 0 then Index(0) else NotANumber
  {
    if clicks > 0 {
      EmptyListCursor(clicks - 1);
    }
  }

  /** The theme requested by the click after `clicks` successful ones. */
  function RequestedAt(themes: seq<string>, clicks: nat): Option<string>
  {
    ThemeAt(themes, CursorAfter(|themes|, clicks))
  }

  /** With the default list, successive clicks ask for night, starry, night, ... and the switcher applies exactly that theme. */
  lemma DefaultAlternates(clicks: nat, currentPreset: Option<string>)
    ensures RequestedAt(DefaultThemes, clicks) == Some(if clicks % 2 == 0 then "night" else "starry")
    ensures Themes.ChooseTheme(RequestedAt(DefaultThemes, clicks), currentPreset)
              == RequestedAt(DefaultThemes, clicks).value
  {
    CursorAfterIsModulo(2, clicks);
  }

  class Button {
    const themes: seq<string>
    var currentThemeIndex: Cursor
    /** Successful clicks so far. */
    ghost var clicks: nat

    ghost predicate Valid()
      reads this
    {
      currentThemeIndex == CursorAfter(|themes|, clicks)
    }

    constructor (themes: seq<string>)
      ensures Valid() && this.themes == themes
      ensures currentThemeIndex == Index(0) && clicks == 0
    {
      this.themes := themes;
      currentThemeIndex := Index(0);
      clicks := 0;
    }

    /** A click: pass `themes[currentThemeIndex]` to the switcher if there is one, then advance. */
    method HandleClick(switcherAvailable: bool) returns (effect: ClickEffect)
      requires Valid()
      modifies this
      ensures Valid()
      ensures !switcherAvailable ==>
                effect == SwitcherMissing && currentThemeIndex == old(currentThemeIndex) && clicks == old(clicks)
      ensures switcherAvailable ==>
                effect == Requested(ThemeAt(themes, old(currentThemeIndex)))
                && currentThemeIndex == Advance(old(currentThemeIndex), |themes|)
                && clicks == old(clicks) + 1
      ensures switcherAvailable && |themes| > 0 ==>
                effect == Requested(Some(themes[old(clicks) % |themes|]))
                && currentThemeIndex == Index((old(clicks) + 1) % |themes|)
    {
      if switcherAvailable {
        effect := Requested(ThemeAt(themes, currentThemeIndex));
        currentThemeIndex := Advance(currentThemeIndex, |themes|);
        clicks := clicks + 1;
        if |themes| > 0 {
          CursorAfterIsModulo(|themes|, old(clicks));
          CursorAfterIsModulo(|themes|, clicks);
        }
      } else {
        effect := SwitcherMissing;
      }
    }
  }
}
