# hue-hue-hue, modelled in Dafny

hue-hue-hue is a colour-perception game. Each level shows a grid of tiles in
one colour, except for one tile whose colour differs slightly. The player
clicks the odd tile. There are ten levels: the grids grow and the colour
distance shrinks. Every level starts with three lives; three wrong clicks on
one level end the game, and the best level reached is kept as a record.

This project models the core of the game and proves properties of it:

- **Game** (`game.dfy`) models the session hook `useGameState`.
  - The record of game state when the hook starts.
  - The events that rewrite it: start, a click on a tile, next level, reset, the colour-blind toggle and the once-a-second timer tick. The language toggle rewrites the separate language state, as the hook's second `useState` holds it, and leaves the record alone.
  - Each event is a function from the old record to the new one. The class `Session` holds the record and the language; its methods replace them as the hook's handlers do, and each is proved to produce what its function says.
  - An invariant of the record holds initially, and every event and every run of events preserves it. The record never drops.
- **Colors** (`colors.dfy`) models the colour-pair generator `generateColorPair`.
  - Fifty attempts. Each attempt runs three nested step-down loops over the hue, saturation and lightness offsets, and returns the first candidate that passes the tolerance test.
  - If no candidate passes, the fixed fallback table is used.
  - Also `toHex` and `getPattern`.
  - The floating-point conversions (HSL to RGB, RGB to CIE L\*a\*b\*, the CIE76 distance) are parameters of the model, the `Science` value. The random numbers of each attempt are an `AttemptDraw`.
- **Types** (`types.ts`'s tables): the ten level configurations and the six fallback pairs, with facts about them.
- **GameHeader** (`game_header.dfy`): the `mm:ss` clock, the three hearts, and the best-record text.
- **I18n** (`i18n.dfy`): the two translation tables and `t`, which replaces the first `{name}` in the text for each parameter.
- **JsText** (`jstext.dfy`): the JavaScript built-ins the core relies on. `Number#toString(radix)`, `String(n)`, `padStart`, `indexOf`, `String#replace` with a string pattern (including the `$` replacement patterns) and the truncating `%`.

Three behaviours of the code worth knowing:

- The clock is paused while a level is complete. The timer effect's guard at `src/hooks/useGameState.ts:68` stops it.
- `handleCellClick` has no `isPlaying` test. A click before the game starts is processed like any other, because the guard at line 118 only looks at the three end flags.
- The comment at `src/lib/colors.ts:53` says the hue shift falls to 1° at level 10. The formula on line 54 gives 3°, and the model uses the formula.

## Model

| member | source | states |
|---|---|---|
| `Types.Config` | src/lib/types.ts:54-65 | the lookup returns the table entry at index level - 1; that entry describes level n, with at least a 3 x 3 grid and a positive target distance |
| `Types.CellCount` | src/lib/types.ts:55-64 | every level has between 9 and 30 tiles |
| `Types.LevelNumbers` | src/lib/types.ts:54-65 | ten entries, entry i for level i + 1 |
| `Types.DeltaEDecreasing` | src/lib/types.ts:55-64 | the target distance strictly decreases across levels, from 8 to 0.5 |
| `Types.CellCountNonDecreasing` | src/lib/types.ts:55-64 | the tile count never decreases across levels; it is 9 for levels 1-3 and 30 for levels 9-10 |
| `Types.CellSizeDecreasing` | src/lib/types.ts:55-64 | the tile size strictly decreases across levels, from 120 to 50 |
| `Types.BackupPairsShape` | src/lib/types.ts:67-74 | six fallback pairs, each of two `#` + six hexadecimal digit codes |
| `Types.BackupPairsUpperCase` | src/lib/types.ts:68-73 | the fallback codes are written in upper case |
| `Types.OnlyChannelDiffers` | src/lib/types.ts:68-73 | two codes that differ only in the digits of one channel differ in exactly one channel |
| `Types.BackupPairsDifferInOneChannel` | src/lib/types.ts:68-73 | the two colours of each fallback pair differ in exactly one two-digit channel |
| `Colors.HueShift` | src/lib/colors.ts:54 | the hue-shift ceiling is at least 1, and at most 30 from level 1 on |
| `Colors.StepDown` | src/lib/colors.ts:59-61 | no ensures; the values of a `for (x = start; x >= 1; x -= 2)` loop; characterized by `StepDownValues` |
| `Colors.Sign` | src/lib/colors.ts:55-56 | no ensures; `Math.random() > 0.5 ? 1 : -1` with the comparison's outcome as input: 1 when up, -1 otherwise; used by `Candidate` |
| `Colors.HueShiftValues` | src/lib/colors.ts:54 | the ceiling is 30 at level 1 and 3 at level 10, and never grows with the level |
| `Colors.StepDownValues` | src/lib/colors.ts:59-61 | a step-down loop from `start` visits start, start - 2, ..., all at least 1: (start + 1) / 2 values |
| `Colors.SlDeltas` | src/lib/colors.ts:60-61 | the saturation and lightness offsets are 5, 3, 1 |
| `Colors.WrapHue` | src/lib/colors.ts:62 | a hue in [0, 360) moved by at most 360 either way stays in [0, 360), as `(h + offset) mod 360` |
| `Colors.Clamp` | src/lib/colors.ts:63-64 | the clamped value lies in [0, 100] and equals the input when the input already does |
| `Colors.Candidate` | src/lib/colors.ts:62-64 | a candidate's saturation and lightness lie in [0, 100]; for a base drawn in range and the offsets searched, its hue lies in [0, 360) and the offsets apply unclamped |
| `Colors.WithinTolerance` | src/lib/colors.ts:71 | no ensures; `Math.abs(dE - targetDeltaE) < targetDeltaE * 0.3` over exact reals; used by `Accepted` |
| `Colors.Accepted` | src/lib/colors.ts:66-71 | no ensures; the candidate's CIE76 distance from the base passes the tolerance test; the acceptance condition of `TryLightnessFinds` through `GenerateForms` |
| `Colors.PairAt` | src/lib/colors.ts:72-77 | no ensures; the returned object: the base's and the candidate's codes; characterized through `ToHex` and `GenerateForms` |
| `Colors.FirstSomeFinds` | src/lib/colors.ts:59-78 | a first-match search returns the first element's result with every earlier element failing, and returns none exactly when every element fails |
| `Colors.TryLightnessFinds` | src/lib/colors.ts:61-78 | the lightness loop returns the first of its three candidates that is accepted, every earlier one rejected; none exactly when none of them is accepted |
| `Colors.TrySaturationFinds` | src/lib/colors.ts:60-80 | the saturation loop returns the first accepted of its nine candidates in (saturation, lightness) loop order, every earlier one rejected; none exactly when none is accepted |
| `Colors.TryAttemptFinds` | src/lib/colors.ts:59-81 | one attempt returns the first accepted candidate in (hue, saturation, lightness) loop order, every earlier one rejected; none exactly when none is accepted |
| `Colors.Fallback` | src/lib/colors.ts:85-89 | the fallback is the table pair at index (level - 1) mod 6, and so one of the six table pairs |
| `Colors.GenerateForms` | src/lib/colors.ts:45-89 | the generator returns the codes of the first accepted candidate in (attempt, hue, saturation, lightness) loop order, paired with its own attempt's base, every candidate tried before it rejected; or, exactly when no candidate of any attempt is accepted, the level's fallback pair |
| `Colors.FailedAttemptsReject` | src/lib/colors.ts:45-82 | attempts whose search finds nothing have no accepted candidate at all |
| `Colors.FirstWithinAttempt` | src/lib/colors.ts:45-82 | a candidate first within its attempt, after attempts with nothing accepted, is first over the whole search |
| `Colors.AttemptsFindFirst` | src/lib/colors.ts:45-82 | when some attempt finds a pair, it is the pair of the first accepted candidate of the whole search |
| `Colors.TryLightness` | src/lib/colors.ts:61-78 | no ensures; the first accepted lightness offset's pair; characterized by `TryLightnessFinds` and computed by `SearchLightness` |
| `Colors.TrySaturation` | src/lib/colors.ts:60-80 | no ensures; the first saturation offset whose lightness loop finds a pair; characterized by `TrySaturationFinds` and computed by `SearchSaturation` |
| `Colors.TryAttempt` | src/lib/colors.ts:59-81 | no ensures; the first hue offset whose saturation loop finds a pair; characterized by `TryAttemptFinds` and computed by `SearchAround` |
| `Colors.Generate` | src/lib/colors.ts:43-90 | no ensures; the first attempt's find, else the fallback pair; characterized by `GenerateForms` and computed by `GenerateColorPair` |
| `Colors.TryAttempts` | src/lib/colors.ts:45-82 | no ensures; the 50-attempt loop as the first attempt that finds a pair; characterized by `AttemptsFindFirst` and `FailedAttemptsReject`, computed by `GenerateColorPair` |
| `Colors.MaxCandidatesValue` | src/lib/colors.ts:45-61 | at most 50 x ceil(hueShift / 2) x 3 x 3 candidates, and no more than 6750 at any level |
| `Colors.GenerateColorPair` | src/lib/colors.ts:43-90 | the attempt loop returns what the search specification gives and tries no more than the candidate bound |
| `Colors.SearchAround` | src/lib/colors.ts:50-81 | the hue loop of one attempt returns the first hue offset's find, within 9 candidates per offset |
| `Colors.SearchSaturation` | src/lib/colors.ts:60-80 | the saturation loop returns the first saturation offset's find, within 9 candidates, all 9 when it finds none |
| `Colors.SearchLightness` | src/lib/colors.ts:61-79 | the lightness loop computes each candidate as the source does and returns the first accepted, within 3 candidates |
| `Colors.Hex2Digits` | src/lib/colors.ts:73 | a channel is written as two lower-case hexadecimal digits that read back as the channel |
| `Colors.Hex2` | src/lib/colors.ts:73 | no ensures; `c.toString(16).padStart(2, '0')`; characterized by `Hex2Digits` |
| `Colors.ToHex` | src/lib/colors.ts:72-73 | `#` and three lower-case two-digit groups, each reading back as its channel |
| `Colors.ToHexInjective` | src/lib/colors.ts:72-77 | distinct colours get distinct codes |
| `Colors.GetPattern` | src/lib/colors.ts:93-101 | a non-negative index gives pattern index mod 4; a negative one gives a pattern only when it is a multiple of 4 |
| `Colors.PatternPeriod` | src/lib/colors.ts:100 | the patterns repeat every four indices |
| `JsText.ToRadix` | src/components/GameHeader.tsx:37 | `toString(radix)` writes at least one digit of the radix and no upper-case letter |
| `JsText.ToRadixRoundTrip` | src/lib/colors.ts:73 | reading back what `toString(radix)` wrote gives the number |
| `JsText.ToRadixLength` | src/lib/colors.ts:73 | one digit exactly below the radix, at most two below its square |
| `JsText.LeadingZeros` | src/components/GameHeader.tsx:37 | leading zeros do not change a digit string's value |
| `JsText.ZeroPaddedValue` | src/components/GameHeader.tsx:37 | `padStart` with `0` keeps a digit string's value |
| `JsText.PadStart` | src/components/GameHeader.tsx:37 | the padded string is as long as the target or the input, ends with the input and starts with filler |
| `JsText.NumberToString` | src/lib/i18n.ts:61 | `String(n)` is the decimal digits of n, behind a minus sign when n is negative |
| `JsText.NumberSign` | src/components/GameHeader.tsx:92 | `String(n)` starts with a minus sign exactly for negative n, with a digit otherwise |
| `JsText.JsRem` | src/lib/colors.ts:62 | the truncating remainder is the mathematical one for a non-negative dividend, in (-b, 0] for a negative one |
| `JsText.IndexOf` | src/lib/i18n.ts:61 | `indexOf` finds the first occurrence, or none exactly when there is none |
| `JsText.ExactlyOnce` | src/lib/i18n.ts:18 | a text around one copy of a pattern whose first character appears nowhere else holds it exactly once |
| `JsText.SubstitutionVerbatim` | src/lib/i18n.ts:61 | a replacement without `$` is inserted verbatim |
| `JsText.ReplaceAbsent` | src/lib/i18n.ts:61 | `replace` with a pattern that does not occur leaves the text unchanged |
| `JsText.ReplaceFirst` | src/lib/i18n.ts:61 | `replace` puts the replacement in place of the first occurrence only |
| `JsText.Replace` | src/lib/i18n.ts:61 | no ensures; `String#replace` with a string pattern: the first occurrence replaced by the expanded substitution; characterized by `ReplaceAbsent`, `ReplaceFirst` and `SubstitutionVerbatim` |
| `JsText.Substitution` | src/lib/i18n.ts:61 | no ensures; the `$$`, `$&`, `` $` `` and `$'` expansions `String#replace` applies to its replacement; characterized by `SubstitutionVerbatim` |
| `JsText.ReplaceAfter` | src/lib/i18n.ts:61 | with the pattern's first character absent before it, the replacement lands exactly there and the rest stays |
| `I18n.Placeholder` | src/lib/i18n.ts:61 | the placeholder is two characters longer than the name, starts with `{`, ends with `}`, and holds exactly the name between them |
| `I18n.Translation` | src/lib/i18n.ts:3-54 | no ensures; the two literal tables; characterized by `YourScoreHasOnePlaceholder`, `LivesRemainingHasOnePlaceholder` and `BestTextDistinguishesNone` |
| `I18n.ApplyAll` | src/lib/i18n.ts:59-63 | no ensures; the parameters applied in entry order, each a first-match replace; characterized by `ApplyAppend`, `AbsentParam` and `FirstPlaceholderReplaced` |
| `I18n.ValueString` | src/lib/i18n.ts:61 | no ensures; `String(v)`: the text itself, or `NumberToString` of a number; characterized by `NumberHasNoDollar` |
| `I18n.ApplyParam` | src/lib/i18n.ts:61 | no ensures; one `text.replace(`{k}`, String(v))`; characterized by `AbsentParam` and `FirstPlaceholderReplaced` |
| `I18n.Translate` | src/lib/i18n.ts:57-65 | no ensures; the table entry, with the parameters applied when present; characterized by `NoParamsVerbatim`, `YourScoreText` and `LivesRemainingText`, computed by `T` |
| `I18n.NoParamsVerbatim` | src/lib/i18n.ts:57-64 | without parameters, or with an empty record, `t` returns the table entry verbatim |
| `I18n.T` | src/lib/i18n.ts:57-65 | the loop over the entries computes the entry-order substitution |
| `I18n.ApplyAppend` | src/lib/i18n.ts:60-62 | the parameters act in entry order, each on the result so far |
| `I18n.AbsentParam` | src/lib/i18n.ts:61 | a parameter whose placeholder does not occur leaves the text unchanged |
| `I18n.NumberHasNoDollar` | src/lib/i18n.ts:61 | a number's text holds no `$`, so it is inserted verbatim |
| `I18n.FirstPlaceholderReplaced` | src/lib/i18n.ts:61 | a number parameter replaces the first `{name}` and any later one stays |
| `I18n.YourScoreHasOnePlaceholder` | src/lib/i18n.ts:18-43 | `yourScore` holds `{level}` exactly once in both languages |
| `I18n.LivesRemainingHasOnePlaceholder` | src/lib/i18n.ts:27-52 | `livesRemaining` holds `{lives}` exactly once in both languages |
| `I18n.YourScoreText` | src/lib/i18n.ts:56-66 | the score line for any level, in both languages |
| `I18n.LivesRemainingText` | src/lib/i18n.ts:56-66 | the lives line for any number of lives, in both languages |
| `GameHeader.Pad2Digits` | src/components/GameHeader.tsx:37 | a padded field is a digit string reading back as its number |
| `GameHeader.Pad2` | src/components/GameHeader.tsx:37 | no ensures; `n.toString().padStart(2, '0')`; characterized by `Pad2Digits` and `Pad2Length` |
| `GameHeader.Pad2Length` | src/components/GameHeader.tsx:37 | a padded field has at least two digits, exactly two below 100 |
| `GameHeader.FormatTime` | src/components/GameHeader.tsx:34-38 | the clock has a colon three from the end; under 6000 seconds it is five characters with the colon at index 2 |
| `GameHeader.FormatTimeFields` | src/components/GameHeader.tsx:35-37 | the fields are the padded minutes and the padded seconds within the minute |
| `GameHeader.FormatTimeRoundTrip` | src/components/GameHeader.tsx:34-38 | both fields are digit strings, the seconds field is below 60, and minutes x 60 + seconds is the input |
| `GameHeader.Hearts` | src/components/GameHeader.tsx:76 | exactly three hearts |
| `GameHeader.HeartsShowLives` | src/components/GameHeader.tsx:76-83 | heart i is full when i is below the lives; the full hearts are the lives clamped to 0..3 and come first |
| `GameHeader.BestTextDistinguishesNone` | src/components/GameHeader.tsx:92 | a recorded best never reads as the no-record label |
| `GameHeader.BestTextInjective` | src/components/GameHeader.tsx:92 | two records shown alike are the same record |
| `GameHeader.BestText` | src/components/GameHeader.tsx:92 | no ensures; the record, or the noBest label when there is none; characterized by `BestTextDistinguishesNone` and `BestTextInjective` |
| `Game.Initial` | src/hooks/useGameState.ts:16-30 | the initial record keeps the invariant, is not running and has no record |
| `Game.Inv` | src/hooks/useGameState.ts:16-202 | no ensures; the invariant of the hook's record (level 1-10, lives 0-3, at most one end flag, game over exactly at zero lives and with the answer shown, the tile on the grid while playing, a record in 1-10); established by `Initial`, kept by `EventKeepsInv` and `ReachableKeepsInv` |
| `Game.WithLevel` | src/hooks/useGameState.ts:85-100 | no ensures; the `generateLevel` update: level, tile and colours set, overlay and answer cleared; used by `Start`, `Next` and `Session.GenerateLevel` |
| `Game.Start` | src/hooks/useGameState.ts:102-115 | no ensures; the `startGame` update followed by `generateLevel(1)`; characterized by `StartState` |
| `Game.Click` | src/hooks/useGameState.ts:117-168 | no ensures; the `handleCellClick` branches; characterized by `ClickIgnoredWhenBlocked`, `CorrectClickPassesLevel`, `CorrectClickWinsAtLastLevel`, `WrongClickCostsLife`, `WrongClickLoses` and `ClickKeepsInv` |
| `Game.Next` | src/hooks/useGameState.ts:170-177 | no ensures; three lives, then `generateLevel(level + 1)`; characterized by `NextState` |
| `Game.Reset` | src/hooks/useGameState.ts:179-191 | no ensures; the `resetGame` update; characterized by `ResetState` |
| `Game.ToggleColorBlind` | src/hooks/useGameState.ts:193-198 | no ensures; flips `colorBlindMode`; characterized by `TogglesInvolutive` |
| `Game.FlipLanguage` | src/hooks/useGameState.ts:200-202 | no ensures; zh-TW to en and back; characterized by `TogglesInvolutive` |
| `Game.TickOnce` | src/hooks/useGameState.ts:67-83 | no ensures; one more second while the timer runs; characterized by `TickAdvances` |
| `Game.TimerRuns` | src/hooks/useGameState.ts:68 | no ensures; the timer effect's condition: playing and no end flag up; used by `TickOnce`, characterized by `TickAdvances` |
| `Game.Blocked` | src/hooks/useGameState.ts:118 | no ensures; the guard of `handleCellClick`: a passed level, a lost game or a won game; characterized by `ClickIgnoredWhenBlocked` |
| `Game.Improved` | src/hooks/useGameState.ts:127-129 | `newBest` is at least the new level and the old record, and is one of them |
| `Game.StartState` | src/hooks/useGameState.ts:102-115 | after `startGame`: level 1, 3 lives, clock 0, running, every end flag and the answer down, the odd tile below 9, the drawn colours; record and mode unchanged |
| `Game.ClickIgnoredWhenBlocked` | src/hooks/useGameState.ts:118 | with a level passed, the game lost or the game won, a click changes nothing |
| `Game.CorrectClickPassesLevel` | src/hooks/useGameState.ts:136-141 | the odd tile below the last level raises the level-complete flag and changes nothing else |
| `Game.CorrectClickWinsAtLastLevel` | src/hooks/useGameState.ts:124-135 | the odd tile at level 10 wins and stops the game, and the record becomes the level unless already higher |
| `Game.WrongClickCostsLife` | src/hooks/useGameState.ts:142-166 | another tile with lives to spare costs exactly one life, nothing else |
| `Game.WrongClickLoses` | src/hooks/useGameState.ts:145-160 | another tile on the last life: no lives, game over, stopped, answer shown, record raised to the last level passed only when that is at least 1 |
| `Game.LosingFirstLevelRecordsNothing` | src/hooks/useGameState.ts:150-159 | losing on level 1 with no record leaves no record |
| `Game.NextState` | src/hooks/useGameState.ts:170-177 | after `nextLevel`: the next level, 3 lives, the overlay and the answer gone, the drawn tile (on the new grid) and the drawn pair; clock, running, record, mode and the lost and won flags unchanged |
| `Game.TickAdvances` | src/hooks/useGameState.ts:67-83 | a tick adds one second exactly while the timer runs, changes nothing else, and does nothing while a level is complete |
| `Game.ResetState` | src/hooks/useGameState.ts:179-191 | `resetGame` restores level 1, 3 lives, clock 0 and all flags down, keeps record, mode, tile and colours, and is idempotent |
| `Game.TogglesInvolutive` | src/hooks/useGameState.ts:193-202 | each toggle flips its setting, and applying it twice restores it |
| `Game.HeartsMatchLives` | src/components/GameHeader.tsx:76-83 | in every state that keeps the invariant the hearts show exactly the remaining lives |
| `Game.ClickKeepsInv` | src/hooks/useGameState.ts:117-168 | a click keeps the invariant and never lowers the record |
| `Game.EventKeepsInv` | src/hooks/useGameState.ts:85-198 | every event that can arrive keeps the invariant and never lowers the record |
| `Game.Enabled` | src/components/ColorSenseGame.tsx:93-97 | no ensures; when an event can arrive: a drawn tile on the grid it is drawn for, and `nextLevel` only while the level-complete overlay is shown; the hypothesis of `EventKeepsInv` and `RunKeepsInv` |
| `Game.RunKeepsInv` | src/hooks/useGameState.ts:85-198 | any run of events keeps the invariant and never lowers the record |
| `Game.ReachableKeepsInv` | src/hooks/useGameState.ts:16-198 | every state reachable from the initial one keeps the invariant |
| `Game.ClimbStep` | src/hooks/useGameState.ts:120-177 | a flawless level below the last leads to a running, unblocked level one higher, the next odd tile placed |
| `Game.ClimbWins` | src/hooks/useGameState.ts:120-177 | clicking the odd tile at every level from k on, moving on after each, wins at level 10 with record 10 |
| `Game.PerfectGameWins` | src/hooks/useGameState.ts:102-177 | from any state that keeps the invariant, starting and then never missing wins the game at level 10 with record 10 |
| `Game.Session.constructor` | src/hooks/useGameState.ts:15-30 | the session starts in the initial record, in Traditional Chinese |
| `Game.Session.GenerateLevel` | src/hooks/useGameState.ts:85-100 | `generateLevel` moves to the level with the drawn tile and the generator's pair |
| `Game.Session.StartGame` | src/hooks/useGameState.ts:102-115 | `startGame` produces the start state and keeps the invariant |
| `Game.Session.HandleCellClick` | src/hooks/useGameState.ts:117-168 | `handleCellClick` produces the click's state and keeps the invariant |
| `Game.Session.NextLevel` | src/hooks/useGameState.ts:170-177 | `nextLevel` from the level-complete overlay produces the next level's state and keeps the invariant |
| `Game.Session.ResetGame` | src/hooks/useGameState.ts:179-191 | `resetGame` produces the reset state and keeps the invariant |
| `Game.Session.ToggleColorBlindMode` | src/hooks/useGameState.ts:193-198 | the mode flips and the invariant holds |
| `Game.Session.ToggleLanguage` | src/hooks/useGameState.ts:200-202 | the language flips and the game state is untouched |
| `Game.Session.Tick` | src/hooks/useGameState.ts:67-83 | one timer firing produces the tick's state and keeps the invariant |

## Left out

- Floating-point colour science. `hslToRgb`, `rgbToLab` and `deltaE` (src/lib/colors.ts:4-40) are arbitrary functions in `Colors.Science`. The model assumes that `hslToRgb` returns channels in 0..255.
- The tolerance test. It is evaluated over exact reals, not IEEE doubles.
- `Math.random`. Every random number is an input:
  - the odd tile's index `pick`;
  - per attempt, an `AttemptDraw`: base hue, saturation and lightness, the two direction signs, and a hue sign per candidate.
- The base colour's ranges. `Colors.DrawInRange` states them, but no operation requires them, because the code would work on any draw.
- localStorage. Loading and saving the record, the language and the mode (src/hooks/useGameState.ts:35-64) is I/O.
  - A loaded record can be any number. The invariant's "a record is a level number" covers only records this code writes.
- `setInterval` and `clearInterval` (src/hooks/useGameState.ts:67-83). Only the tick's guard and its increment are modelled, as `TickOnce`. The timer handle, and any tick still in flight when a flag changes, are not modelled.
- React scheduling. `handleCellClick` and `nextLevel` read the state captured when the handler was made. The model reads the current state, which is the same value when events are processed one at a time.
- Sound (src/lib/audio.ts) and all rendering. The screens in `ColorSenseGame.tsx`, `ColorGrid.tsx`, `LevelCompleteOverlay.tsx`, `ResultDialog.tsx` and `StartScreen.tsx` are left out, except for one fact used as an event precondition: `nextLevel` is sent only while the level-complete overlay is shown (src/components/ColorSenseGame.tsx:93-97). Clicks are modelled whatever the screen shows, since the hook's own guard decides what they do.
- `showGameOverDialog` (src/lib/types.ts:24). No code in the hook sets it, so it is not part of the record.
- `ResultDialog`'s reached-level line.
- `Game.Next` and `Game.Session.NextLevel`: the source has no guard, and at level 10 `nextLevel` would index past the level table. The model states this as a precondition: the method requires the level-complete flag, which the invariant keeps below level 10.
- `Game.Session.GenerateLevel`: requires the level to be in 1..10, because the source reads `LEVEL_CONFIGS[level - 1]` without a bounds test.
- `I18n.Translate`: parameter values are strings or integers. `String(v)` for non-integral numbers is not modelled. The object's entries are given as a sequence in their enumeration order.
- `JsText.ToRadix` and `JsText.NumberToString`: write every integer as plain decimal digits, with a minus sign when negative. JavaScript switches to exponent notation from 1e21, and doubles lose integer precision above 2^53. The game's levels, lives, seconds and colour channels stay far below both limits.
- `JsText.Replace`: models a string pattern only. No regular expressions, so `$1` and `$<name>` stay literal, as JavaScript leaves them for a string pattern.
- `Colors.GenerateColorPair`: the candidate count `tried` is a ghost output that only the bound speaks of.
