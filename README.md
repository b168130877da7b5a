# VR-Wordle grid and theme switching, modelled in Dafny

This project models the stateful core of VR-Wordle, a word-guessing game drawn in a 3D scene:

- **The word grid** (`js/components/wordle-grid.js`). A `rows x cols` board of letter tiles with a row cursor and a target word. It has three event handlers:
  - `letterupdate` shows the word being typed in the current row;
  - `letterdelete` clears the tile just after the remaining word;
  - `wordsubmit` colours a five-letter guess, dispatches one `tilecorrect` or `tileincorrect` notification per letter, moves to the next row and writes the victory or game-over banner.
- **The theme switcher** (`js/gui.js`). This covers:
  - the `THEMES` table;
  - the choice of the next theme, either the one requested or the key after the current preset;
  - the `key: value; ...` attribute string a theme is applied with;
  - the light settings written for each theme;
  - the value `_themeSwitch` returns.
- **The background button** (`js/components/backgroundButt.js`). Each click passes `themes[currentThemeIndex]` to the switcher and advances the index modulo the list length.

The modules are:

- `WordleRules` (`wordle_rules.dfy`): the grid's colouring rule as pure functions. It also holds a separate duplicate-aware two-pass evaluator, which serves as an independent reference. Lemmas prove that both rules colour the same tiles green, that every two-pass yellow is also a single-pass yellow, and that the two rules agree on guesses without repeated letters. At any tile where they differ, the grid's rule says yellow, the reference says grey, and the guess repeats that letter.
- `WordleGrid` (`wordle_grid.dfy`): the component as a class. The tiles are an `array2<Tile>`; `currentRow`, `targetWord` and `built` are fields. The handlers are methods whose postconditions give the whole new board.
- `Separated` (`separated.dfy`): `join` on a separator, a leftmost `split`, and the round trip between them.
- `Themes` (`themes.dfy`): the table, the choice, the attribute string and its reading-back, the lights, and `_themeSwitch` as a function of its environment.
- `BackgroundButton` (`background_button.dfy`): the button as a class. A ghost click counter ties its cursor to a closed form.
- `Sequences` (`sequences.dfy`): distinct and repeated elements of a sequence.
- `Wrappers` (`wrappers.dfy`): `Option`.

JavaScript behaviour is written out explicitly:

- `targetWord[i]` past the end is `undefined`, so it never equals a letter.
- `includes` is modelled as sequence membership.
- `indexOf` returns -1 for an absent or undefined preset.
- `(i + 1) % 0` is `NaN`, and indexing a list with `NaN` gives `undefined`.
- `value || '#fff'` uses JavaScript truthiness.
- Numbers in the table are whole tenths and print as JavaScript prints them (`0.8`, `1.5`, `1.7`).
- The browser's DOM becomes state:
  - a row entity is found exactly when the grid has been generated and the cursor is below `rows`;
  - a tile past `cols` does not exist, so a submission on a grid narrower than five columns throws after colouring the first `cols` tiles.

Three facts about the code, which the model follows, differ from how Wordle is usually played:

- A win only writes a banner, and further words are still scored while rows remain (`WinningDoesNotEndTheGame`).
- The length check is the literal 5, whatever the length of the target.
- Colouring is single-pass: a repeated guess letter is yellow wherever it is not green, however many copies the target holds (`HelloSinglePass` against `HelloTwoPass`).

## Model

| member | source | states |
|---|---|---|
| WordleRules.TileVerdict | js/components/wordle-grid.js:146-158 | green exactly on a positional match (never past the end of the target); yellow exactly when not matched but the letter occurs anywhere in the target; grey otherwise |
| WordleRules.Evaluate | js/components/wordle-grid.js:136-163 | one colour per submitted letter, each the single-pass verdict at that position |
| WordleRules.TileEvents | js/components/wordle-grid.js:146-158 | one notification per letter, `tilecorrect` exactly where the tile is green |
| WordleRules.CorrectCount | js/components/wordle-grid.js:134-149 | `correctLetters` after the loop equals the number of positions where guess and target agree, so it never exceeds the guess length |
| WordleRules.AllCorrectIffPrefix | js/components/wordle-grid.js:134-149 | every letter counts as correct iff the guess is a prefix of the target |
| WordleRules.VictoryIffGuessIsTarget | js/components/wordle-grid.js:169-175 | for a five-letter guess, `correctLetters === 5` iff the guess spells the target's first five letters; iff guess == target for a five-letter target |
| WordleRules.HelloSinglePass | js/components/wordle-grid.js:146-158 | against WORLD, HELLO is coloured grey, grey, yellow, green, yellow: both L's light up for WORLD's single L |
| WordleRules.SameGreens | js/components/wordle-grid.js:146-150 | the grid's rule and the two-pass reference colour exactly the same positions green |
| WordleRules.TwoPassYellowIsSinglePassYellow | js/components/wordle-grid.js:151-154 | every tile the two-pass reference colours yellow is yellow under the grid's rule too |
| WordleRules.DistinctLettersAgree | js/components/wordle-grid.js:146-158 | for a guess without repeated letters the grid's rule equals the two-pass reference |
| WordleRules.RulesDifferOnlyAtRepeats | js/components/wordle-grid.js:151-154 | at any tile where the grid's rule and the two-pass reference disagree, the grid says yellow, the reference says grey, and the guess holds that letter at another position too |
| WordleRules.HelloTwoPass | js/components/wordle-grid.js:146-158 | the two-pass reference colours the first L of HELLO grey, where the grid's rule says yellow |
| WordleGrid.ScoredTile | js/components/wordle-grid.js:141-161 | a scored tile shows the guessed letter and always carries a verdict colour: green iff positional match, yellow iff no match but the letter is in the target, grey `#666666` iff the letter is not in the target |
| WordleGrid.BannerAfter | js/components/wordle-grid.js:168-184 | the victory banner iff the guess is the target's first five letters; "The word was <target>" iff the last row was just used without a win; nothing otherwise |
| WordleGrid.Grid.constructor | js/components/wordle-grid.js:17-27 | cursor 0 and target WORLD; the grid is built at once (all tiles blank and white) iff the scene has loaded |
| WordleGrid.Grid.GenerateGrid | js/components/wordle-grid.js:190-238 | every tile of every row is blank with the white material, and the rows exist |
| WordleGrid.Grid.SetTargetWord | js/components/wordle-grid.js:27 | the target is replaced and nothing else changes |
| WordleGrid.Grid.OnLetterUpdate | js/components/wordle-grid.js:42-80 | with a current row present, its first min(word length, cols) tiles show the typed letters in white and its later tiles lose their text but keep their colour; every other tile and the cursor are unchanged; nothing changes once the rows are used up or before the grid exists |
| WordleGrid.Grid.OnLetterDelete | js/components/wordle-grid.js:85-104 | only the tile at column word-length of the current row loses its text (keeping its colour), and only if that column exists |
| WordleGrid.Grid.ScoreRow | js/components/wordle-grid.js:133-163 | the letter loop: every tile of the row up to the word length (or up to the last column, where the lookup throws) gets its scored tile, the count is the prefix's match count and the notifications are the prefix's notifications; nothing else changes |
| WordleGrid.Grid.OnWordSubmit | js/components/wordle-grid.js:109-185 | rejects a guess whose length is not 5, a full board and a missing row without any change; otherwise colours the current row's five tiles, returns the five notifications and the banner, and advances the cursor by one; with fewer than five columns it throws after colouring and notifying the first `cols` letters, and the cursor stays |
| WordleGrid.WinningDoesNotEndTheGame | js/components/wordle-grid.js:165-184 | on the default 6x5 grid a correct WORLD wins with five `tilecorrect`, yet a following WORMS is still scored |
| WordleGrid.SixMissesEndTheGame | js/components/wordle-grid.js:118-184 | against CRANE, the sixth miss writes "The word was CRANE", and a seventh word is refused as rows exhausted |
| Separated.Split | js/gui.js:104-106 | not an operation of the source: JavaScript's leftmost `split`, used to read the joined theme string back for the round trip; it always yields at least one part |
| Separated.SplitJoin | js/gui.js:104-106 | splitting the `join` of parts on an unbordered two-character separator gives the parts back when none of them contains it |
| Themes.SettingsOf | js/gui.js:7-70 | the `THEMES` table (`Names`, `NightSettings`, and the shared shape `LitTheme` of the other five): night has 15 fields, every other theme 7, and each theme's first field is `preset` set to its own key |
| Themes.CycleFrom | js/gui.js:93-97 | the key after the current preset is always a key of the table, and the first key `night` when the preset is undefined or unknown |
| Themes.IndexOf | js/gui.js:94-95 | `indexOf`: -1 iff the preset is undefined or not a key; otherwise the position of its first occurrence |
| Themes.ChooseTheme | js/gui.js:89-98 | the theme applied is always a key of the table: the requested name if it is a key, otherwise the key after the current preset, and `night` when the preset is unknown |
| Themes.CycleStepsInTableOrder | js/gui.js:93-97 | with no usable request, the key after the i-th key is applied, and `volcano` wraps around to `night` |
| Themes.KeyPosition | js/gui.js:94-97 | each key is found at its own position and cycling from it gives the next key in table order |
| Themes.ChooseThemeAsWritten | js/gui.js:90-91 | the lookup as written picks a key or an inherited Object.prototype name, and picks any requested inherited name as it is |
| Themes.InheritedNameIsChosen | js/gui.js:90-91 | requesting `constructor` makes the code as written choose `constructor`, which is not a theme |
| Themes.AsWrittenAgreesOnOwnKeys | js/gui.js:89-98 | apart from inherited names, the written choice equals the corrected one |
| Themes.NatText | js/gui.js:105 | a whole number prints as its decimal digits, which spell exactly that number, with no leading zero |
| Themes.NumText | js/gui.js:105 | a number of tenths prints with a leading `-` iff it is negative and with a decimal point iff it is not whole |
| Themes.TableNumbersPrint | js/gui.js:13-67 | the table's numbers print as `0.8`, `1.5` and `1.7` |
| Themes.Text | js/gui.js:105 | `${value}` of a table value is empty only for the empty string (`0` prints as "0", `false` as "false") |
| Themes.Attribute | js/gui.js:104-106 | the theme string is empty iff there are no entries, and starts with the first `key: value` entry |
| Themes.Field | js/gui.js:133-136 | a field lookup finds a setting with that name and value, or reports that no setting has that name |
| Themes.AttributeRoundTrip | js/gui.js:104-106 | reading the theme string back (split on "; ", then on ": ") gives every `key: value` entry in order, whenever no key or value text holds a separator |
| Themes.ThemeAttributeRoundTrip | js/gui.js:7-70 | every theme in the table serialises to a string that reads back as its own entries |
| Themes.PresetIsOwnName | js/gui.js:7-70 | each theme's `preset` field is its own key, so cycling from an applied theme moves on to the next key |
| Themes.ColourOrWhite | js/gui.js:133-136 | the `'#fff'` fallback: the field's text when the field is present and truthy, otherwise `#fff`; never the empty string |
| Themes.LightsFor | js/gui.js:115-138 | every theme but night gets a directional light in its own `directionalColor`; starry's fixed strings equal the lights its own `ambientColor` and `directionalColor` give; the other four read `horizonColor` for the ambient light |
| Themes.OtherThemesLights | js/gui.js:130-137 | egypt, forest, dream and volcano have no `horizonColor`, so their ambient light is `#fff`; their directional light takes `directionalColor` |
| Themes.ThemeSwitch | js/gui.js:78-145 | without an environment entity nothing is applied; a throwing apply yields the previous preset; otherwise the key `ChooseTheme` picks is applied, with an attribute string that reads back as that theme's entries and that theme's lights |
| Themes.SwitchReturns | js/gui.js:78-145 | for all inputs, `_themeSwitch` returns null without an environment, the previous preset when applying throws, and otherwise the name chosen by the corrected choice `ChooseTheme`, which is always a key of the table |
| BackgroundButton.ThemeAt | js/components/backgroundButt.js:32 | `themes[index]` is defined exactly for a numeric index inside the list |
| BackgroundButton.Advance | js/components/backgroundButt.js:39 | `(index + 1) % length`: NaN exactly for a NaN index or an empty list; otherwise in range, one more than the index, and back to 0 after the last position |
| BackgroundButton.CursorAfterIsModulo | js/components/backgroundButt.js:39 | with a non-empty list, after n successful clicks the index is n modulo the list length, always in range |
| BackgroundButton.EmptyListCursor | js/components/backgroundButt.js:39 | with an empty list the index becomes NaN at the first successful click |
| BackgroundButton.DefaultAlternates | js/components/backgroundButt.js:8-39 | with the default list the clicks request night, starry, night, ... and the switcher applies exactly the theme requested |
| BackgroundButton.Button.constructor | js/components/backgroundButt.js:14-16 | the index starts at 0 |
| BackgroundButton.Button.HandleClick | js/components/backgroundButt.js:29-46 | without a switcher nothing changes; otherwise the theme at the current index is requested and the index advances by one modulo the list length (NaN for an empty list), which keeps the index equal to the click count modulo the length |

## Left out

- The layout and look of the board are not modelled: spacing, positions, sizes, materials other than the tile colour, and animations. They are floating-point scene data with no effect on the game state.
- The DOM query mechanics are replaced by state. `querySelector('#rowN')` becomes "built and row below `rows`". The `victory` element's existence is not modelled: the banner is returned as the text that would be written.
- Console logging and the `loaded` event listener registration are not modelled. The delayed `themeSwitch('night')` that the button's `init` schedules with `setTimeout` is not modelled either; it is the same `ThemeSwitch` call with `themeName` "night".
- Themes.ThemeSwitch: it applies the corrected choice `ChooseTheme`, not the lookup as written (see Findings). As written, a request such as `constructor` is applied and returned, with an empty attribute string (the `Object` function has no enumerable own properties) and `#fff` for both lights; that path is not modelled.
- Themes.ThemeSwitch: the cases where `setAttribute` throws are abstracted into one boolean parameter. Whether the light entities exist is not modelled; the function returns the light strings that would be written.
- Themes.SwitchReturns: states the return of the switch that uses the corrected choice. As written, a request for an inherited name such as `constructor` returns that name itself, which is not a key of the table; that return is not stated.
- BackgroundButton.Button.HandleClick: an exception thrown from inside the switcher is not modelled; in the code it is caught and the index does not advance. The button's `typeof themeSwitch === 'function'` test is a parameter, because `js/gui.js` defines `_themeSwitch` and exports it only through `module.exports`.
- Strings are sequences of characters. JavaScript's UTF-16 code-unit length and indexing, and a submitted word that is not a string, are not modelled.
- The audio system (`js/audio-system.js`), speech input (`js/stt.js`) and the updater (`js/updater.js`) react to the grid's events. They are not part of this model.
- Themes.NumText: numbers are whole tenths, which covers every number in the table; the contract states the sign, the decimal point and the character classes, and `TableNumbersPrint` pins the three values the table uses, but the digits of a general fraction are not tied to its value.

## Findings

| source | as written | input that shows it | evidently intended | confidence | as-written member | corrected member |
|---|---|---|---|---|---|---|
| js/gui.js:90-91 | `THEMES[themeName]` is truthy for names every object inherits from `Object.prototype`, so such a name is chosen as the next theme | `_themeSwitch('constructor')` chooses and returns `constructor`, which is not a key of the table | only the table's own keys select a theme; any other name cycles to the next key | high, not executed | Themes.ChooseThemeAsWritten | Themes.ChooseTheme |
