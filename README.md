# Powerlifting plate calculator: a Dafny model

The calculator takes a lifter's max and lists training loads as percentages of it. Each listed
load comes with the plates to put on each side of the bar. This project models the arithmetic
behind that list and the settings panel that configures it, and proves properties of both.

- **Rounding** (`rounding.dfy`):
  - `roundToNearestHalf` is `Math.round(x * 2) / 2`.
  - `roundToNearestLoadableWeight` rounds to a multiple of 5 using the JavaScript remainder `%`.
  - Both JavaScript operators are written out. `Math.round` rounds a tie toward +infinity; `%`
    truncates toward zero.
- **Plate breakdown** (`breakdown.dfy`):
  - `calculateWeightBreakdown` is an imperative loop over the plates 45, 35, 25, 10, 5 and 2.5.
  - For each plate it pushes `Math.floor(weight / plate)` copies and subtracts them from the
    weight.
  - The loop is proved equal to a recursive specification, `Greedy`. The properties are proved
    about `Greedy`.
- **Plate grouping** (`groups.dfy`):
  - `groupPlates` counts each plate in a dictionary.
  - It then lists the entries with the largest plate first.
- **Percentage table** (`table.dfy`):
  - `calculateWeight` rounds `max * percentage / 100` twice. It then halves what is left over the
    bar, rounded to a half.
  - The table runs 100% down to 40%. It skips a row whose bar load is below 45 and breaks every
    other row's per-side weight into plates.
- **Older page** (`legacy.dfy`):
  - The same calculation with the bar fixed at 45, for percentages 95 down to 40.
  - It also adds the plates back up into a displayed bar total.
- **Settings panel** (`settings.dfy`):
  - `handleChange`, rename, add and delete of exercise types, the bar toggle, and reset to the
    default settings.
  - The border-colour change writes into a shared entry object. Entries and the settings holder
    are therefore objects with mutable fields.
- **Calculator page's bar** (`page.dfy`):
  - The page keeps its own `useState` copy of the bar next to the stored settings.
  - Its toggle writes both; the panel's toggle writes only the stored bar.

Weights are exact `real` numbers, and integers are unbounded. The filter in the table compares
the bar load with 45 whatever bar is selected; the model keeps that constant (`MinimumShown`).

## Model

| member | source | states |
|---|---|---|
| Rounding.JsRound | src/routes/App.tsx:151 | `Math.round`: the integer `n` with `x - 0.5 < n <= x + 0.5`, so a tie goes up |
| Rounding.JsTrunc | src/routes/App.tsx:155 | the truncation inside JavaScript `%`: the floor for `x >= 0`, within one step toward zero for `x < 0` |
| Rounding.JsRem | src/routes/App.tsx:155 | JavaScript `weight % 5` (also src/App.tsx:126): by a positive divisor `b`, the remainder lies in `[0, b)` for a non-negative dividend and in `(-b, 0]` for a negative one; `JsRemMultiple` gives the other half |
| Rounding.JsRemMultiple | src/routes/App.tsx:155 | what `%` takes away from the dividend is a whole number of divisors, so with the bounds of `JsRem` the remainder is the truncated one |
| Rounding.RoundToNearestHalf | src/routes/App.tsx:150-152 | the result is a multiple of 0.5 in the window `(x - 0.25, x + 0.25]`; src/App.tsx:121-123 is the same text |
| Rounding.RoundToNearestHalfUnique | src/routes/App.tsx:150-152 | any multiple of 0.5 in that window is the result, so the result is the nearest half |
| Rounding.RoundToNearestHalfTiesUp | src/routes/App.tsx:151 | a value exactly between two halves rounds up |
| Rounding.RoundToNearestHalfFixes | src/routes/App.tsx:150-152 | a multiple of 0.5 is returned unchanged, so rounding twice equals rounding once |
| Rounding.RoundToNearestLoadableWeight | src/routes/App.tsx:154-158 | the result is a multiple of 5; for `w >= 0` it lies in `(w - 2.5, w + 2.5]`; for `w < 0` in `[w, w + 5)`; src/App.tsx:125-129 is the same text |
| Rounding.RoundToNearestLoadableWeightUnique | src/routes/App.tsx:154-158 | for `w >= 0`, any multiple of 5 in `(w - 2.5, w + 2.5]` is the result: the nearest multiple of 5 |
| Rounding.RoundToNearestLoadableWeightFixes | src/routes/App.tsx:156 | a multiple of 5 (remainder 0) is returned unchanged, whatever its sign |
| Rounding.RoundToNearestLoadableWeightIdempotent | src/routes/App.tsx:154-158 | rounding twice equals rounding once (for both pages' copies) |
| Rounding.RoundToNearestLoadableWeightTieUp | src/routes/App.tsx:157 | a remainder of exactly 2.5 rounds up by 2.5 (also src/App.tsx:128) |
| Rounding.RoundToNearestLoadableWeightExample | src/routes/App.tsx:154-158 | 102.5 rounds to 105 |
| PlateBreakdown.CalculateWeightBreakdown | src/routes/App.tsx:79-92 | the pushed plates equal `Greedy(weight, Plates)`; all come from the plate list, in non-increasing order; for `weight >= 0` their sum is at most `weight` and less than 2.5 below it; for a non-negative multiple of 2.5 they sum to `weight`; src/App.tsx:61-74 is the same text |
| PlateBreakdown.LoadPlates | src/routes/App.tsx:83-89 | the `forEach` with its inner push loop and `weight -=` returns `Greedy(weight, plates)` for any list of positive plates |
| PlateBreakdown.Count | src/routes/App.tsx:84 | `count` copies fit and one more would not: `count * plate <= w < (count + 1) * plate` |
| PlateBreakdown.CountIsFloor | src/routes/App.tsx:84 | `Count(w, plate)` is `Math.floor(w / plate)` |
| PlateBreakdown.Taken | src/routes/App.tsx:88 | what one step takes off is at most the weight and within one plate of it |
| PlateBreakdown.Rest | src/routes/App.tsx:88 | the weight left after one step lies in `[0, plate)`, for any sign of the weight |
| PlateBreakdown.GreedyShape | src/routes/App.tsx:79-92 | over a strictly decreasing plate list the breakdown holds only listed plates, non-increasing, none above the first |
| PlateBreakdown.PlatesContiguous | src/routes/App.tsx:79-92 | in a non-increasing breakdown the copies of a plate are contiguous |
| PlateBreakdown.GreedyPlusResidual | src/routes/App.tsx:83-89 | for `weight >= 0`, breakdown sum plus the dropped residual is the weight; the residual is non-negative and below the last plate |
| PlateBreakdown.GreedyBounds | src/routes/App.tsx:83-89 | for `weight >= 0`, `sum <= weight < sum + 2.5` |
| PlateBreakdown.StepKeepsMultiple | src/routes/App.tsx:84-88 | one step on a multiple of 2.5 with a plate that is a multiple of 2.5 leaves a multiple of 2.5 |
| PlateBreakdown.ResidualMultiple | src/routes/App.tsx:83-89 | over plates that are multiples of 2.5, the residual of a multiple of 2.5 is a multiple of 2.5 |
| PlateBreakdown.ResidualZero | src/routes/App.tsx:83-89 | over such plates ending in 2.5, a non-negative multiple of 2.5 leaves nothing |
| PlateBreakdown.GreedyExact | src/routes/App.tsx:83-89 | a non-negative multiple of 2.5 is loaded exactly |
| PlateBreakdown.GreedyFacts | src/App.tsx:61-74 | the older page's breakdown has only listed plates, non-increasing, with residual in `[0, 2.5)` for non-negative input |
| PlateBreakdown.GreedyExample | src/routes/App.tsx:79-92 | 102.5 a side is two 45s, a 10 and a 2.5 |
| PlateGroups.GroupPlates | src/routes/App.tsx:94-104 | the output is the grouping of the input: strictly descending plates, exactly its distinct plates, each with its number of occurrences |
| PlateGroups.SortedEntries | src/routes/App.tsx:101-103 | the entries of the dictionary, one per key, with its count, sorted by plate from largest to smallest |
| PlateGroups.GroupsTotals | src/routes/App.tsx:94-104 | every count is at least 1; the counts add up to the input length; the sum of `plate * count` is the input's sum |
| PlateGroups.GroupsUnique | src/routes/App.tsx:94-104 | two groupings of the same plates are equal: the output is determined by the input |
| PlateGroups.HeadIsLargest | src/routes/App.tsx:103 | the first entry holds the heaviest plate of the input |
| PlateGroups.GroupsExample | src/routes/App.tsx:94-104 | `[45, 45, 10, 2.5]` groups into `(45, 2), (10, 1), (2.5, 1)` |
| PercentageTable.CalculateWeight | src/routes/App.tsx:160-166 | the bar load is a multiple of 5, within 2.75 of `max * percentage / 100` when that is non-negative; the per-side weight is the gap over the bar halved and rounded to a multiple of 0.5 |
| PercentageTable.TargetLoadable | src/routes/App.tsx:160-166 | on a bar that is a multiple of 5 and no heavier than the bar load, the per-side weight is exactly half the gap, a non-negative multiple of 2.5, and bar plus both sides of its breakdown is the bar load |
| PercentageTable.TablePercentagesSorted | src/routes/App.tsx:266-267 | the listed percentages are already strictly decreasing, `100 - 5k`, so the `sort` leaves them as written |
| PercentageTable.Rows | src/routes/App.tsx:266-272 | at most one row per listed percentage, each for a listed percentage with a bar load of at least 45; `RowsMembers`, `RowsOrdered` and `RowsLoadExactly` state the rest |
| PercentageTable.RowsMembers | src/routes/App.tsx:266-272 | a percentage has a row if and only if it is listed and its bar load is at least 45; every row is the one its percentage produces |
| PercentageTable.RowsOrdered | src/routes/App.tsx:266-268 | rows come out in the order of the percentages, largest first |
| PercentageTable.RowsLoadExactly | src/routes/App.tsx:266-272 | on a bar that is a multiple of 5 and at most 45 (the 45 and 35 bars), every row has a non-negative per-side weight that is a multiple of 2.5, and bar plus both sides is the bar load |
| PercentageTable.RowsEmptyWhenLight | src/routes/App.tsx:266-272 | any max below 42.25, negative ones included (the max is `Number` of a free number field), shows no row at all |
| PercentageTable.TableExample45 | src/routes/App.tsx:160-166 | 315 at 80% on a 45 bar gives 250 on the bar, 102.5 a side, plates 45, 45, 10, 2.5 |
| PercentageTable.TableExample35 | src/routes/App.tsx:160-166 | 100 at 100% on a 35 bar gives 100 on the bar, 32.5 a side, and the plates `[25, 5, 2.5]` |
| PercentageTable.TableExampleZero | src/routes/App.tsx:266-272 | a max of 0 gives an empty table on any bar |
| PlateBreakdown.GreedyExample35 | src/routes/App.tsx:79-92 | 32.5 per side breaks down to `[25, 5, 2.5]` |
| LegacyCalculator.CalculateWeight45 | src/App.tsx:131-137 | the bar load is a multiple of 5; the per-side weight is a multiple of 0.5 within 0.25 of half the gap over a 45 bar |
| LegacyCalculator.CalculateWeight45IsRoute | src/App.tsx:131-137 | the older `calculateWeight` is the current one on a 45 bar |
| LegacyCalculator.BarTotal | src/App.tsx:256-259 | the `reduce` as a left fold; over non-negative plates it never falls below its starting value (`BarTotalIsTwiceSum` gives its value) |
| LegacyCalculator.BarTotalIsTwiceSum | src/App.tsx:256-259 | the `reduce` starting at 45 adds twice the sum of the plates to 45 |
| LegacyCalculator.Cards | src/App.tsx:189-193 | at most one card per percentage |
| LegacyCalculator.CardsAreRows | src/App.tsx:189-193 | the older page skips and keeps exactly the rows the current table keeps on a 45 bar, in the same order |
| LegacyCalculator.CardShape | src/App.tsx:189-193 | every card is its percentage's `calculateWeight` with a bar load of at least 45, that load's breakdown, and the folded total |
| LegacyCalculator.CardsDisplayBarLoad | src/App.tsx:209-259 | on every card the displayed total `45 + 2 * sum` (lines 256-259) equals the bar load, and the bar load is positive, so the plates are drawn (line 209) |
| LegacyCalculator.LegacyPercentagesShape | src/App.tsx:119 | the percentages are `95 - 5k`, strictly decreasing, without 100; they are the current list without its head |
| LegacyCalculator.LegacyCardsOrdered | src/App.tsx:189 | cards come largest percentage first, and no card is for 100% |
| SettingsPanel.HandleChange | src/routes/Settings.tsx:24-27 | afterwards the named key holds the new value and every other key is unchanged |
| SettingsPanel.HandleChangeLastWins | src/routes/Settings.tsx:24-27 | two writes to one key keep the second |
| SettingsPanel.HandleChangeCommutes | src/routes/Settings.tsx:24-27 | writes to different keys commute |
| SettingsPanel.HandleChangeCurrent | src/routes/Settings.tsx:24-27 | writing back a key's current value changes nothing |
| SettingsPanel.RenameExerciseType | src/routes/Settings.tsx:36-38 | length, order and ids are kept; an entry gets the new name exactly when its id matches, otherwise it keeps its name |
| SettingsPanel.RenameIdempotent | src/routes/Settings.tsx:35-40 | renaming twice with the same name equals renaming once |
| SettingsPanel.RenameAbsent | src/routes/Settings.tsx:35-40 | renaming an absent id changes nothing |
| SettingsPanel.RenameKeepsIds | src/routes/Settings.tsx:35-40 | renaming keeps the ids, and therefore keeps them unique |
| SettingsPanel.HandleExerciseTypeChange | src/routes/Settings.tsx:35-40 | the exercise types become the renamed list; no other key changes |
| SettingsPanel.DeleteExerciseType | src/routes/Settings.tsx:52-54 | an entry is kept if and only if it was there and its id differs |
| SettingsPanel.DeleteAppend | src/routes/Settings.tsx:52-54 | deleting from a concatenation deletes from each part, so the kept entries stay in order |
| SettingsPanel.DeleteAbsent | src/routes/Settings.tsx:51-56 | deleting an absent id changes nothing |
| SettingsPanel.DeleteIdempotent | src/routes/Settings.tsx:51-56 | the id is gone afterwards, so deleting twice equals deleting once |
| SettingsPanel.DeleteKeepsUnique | src/routes/Settings.tsx:51-56 | deleting keeps ids unique |
| SettingsPanel.HandleDeleteExerciseType | src/routes/Settings.tsx:51-56 | the exercise types become the filtered list; no other key changes |
| SettingsPanel.AddExerciseType | src/routes/Settings.tsx:42-49 | exactly one entry `(old length + 1, "New Exercise")` is appended after an unchanged prefix |
| SettingsPanel.HandleAddExerciseType | src/routes/Settings.tsx:42-49 | the exercise types become the extended list; no other key changes |
| SettingsPanel.AddKeepsDense | src/routes/Settings.tsx:42-49 | while the ids are `1..n` the new id is fresh, and the ids stay `1..n` and unique |
| SettingsPanel.AddThenDelete | src/routes/Settings.tsx:42-56 | when the new id is fresh, deleting it afterwards gives back the list |
| SettingsPanel.AddCollisionExample | src/routes/Settings.tsx:43 | deleting id 1 from the defaults and adding gives the ids 2, 3, 3, so they are no longer unique |
| SettingsPanel.RenameCollisionExample | src/routes/Settings.tsx:35-49 | renaming the added entry then renames "BackSquat" as well |
| SettingsPanel.FreshId | src/routes/Settings.tsx:43 | an id that no entry has |
| SettingsPanel.AddExerciseTypeFresh | src/routes/Settings.tsx:42-49 | appends one "New Exercise" entry with an id no entry has; unique ids stay unique |
| SettingsPanel.AddFreshThenDelete | src/routes/Settings.tsx:42-56 | the fresh-id add is always undone by deleting its id |
| SettingsPanel.AddFreshOnDense | src/routes/Settings.tsx:42-49 | while the ids are `1..n` the fresh-id add equals the add as written |
| SettingsPanel.HandleBarbellWeightChange | src/routes/Settings.tsx:58-65 | a `null` toggle value leaves the settings unchanged; any other sets `barbellWeight` to it and no other key |
| CalculatorPage.HandleCalculatorBarbellWeightChange | src/routes/App.tsx:174-182 | a `null` toggle value changes nothing; any other sets the page's bar to it and stores it in the settings, as the panel's handler does |
| CalculatorPage.CalculatorBarInSync | src/routes/App.tsx:172-182 | if the page's bar agrees with the stored bar before the page's own toggle, it agrees after it |
| CalculatorPage.PanelBarLeavesCalculator | src/routes/Settings.tsx:58-65 | the panel's toggle sets only the stored bar, so a new value leaves the page's copy (read once by `useState` at src/routes/App.tsx:172) different from it |
| SettingsPanel.NewDefaultSettings | src/defaultSettings.ts:1-16 | delay 300; six fresh, distinct border-colour entries whose plates are the breakdown's plates in order, coloured blue, none, green, yellow, red, none; the three exercise types with ids 1 to 3; no bar |
| SettingsPanel.SettingsStore.UpdateSettings | src/routes/Settings.tsx:26 | the stored settings become the new value |
| SettingsPanel.SettingsStore.Reset | src/routes/Settings.tsx:203-204 | the stored settings become the `defaultSettings` object itself |
| SettingsPanel.SettingsStore.HandleBorderColorChange | src/routes/Settings.tsx:29-33 | an in-range index colours the shared entry at that index, leaves every other entry's colour alone and stores a value equal to the old settings; an out-of-range index fails and changes nothing |
| SettingsPanel.SettingsStore.HandleBorderColorChangeCopying | src/routes/Settings.tsx:29-33 | an in-range index puts a fresh entry with the same plate and the new colour at that index; the other entries are kept; no existing entry is written |
| SettingsPanel.ResetAfterColorEdit | src/routes/Settings.tsx:29-33 | reset, recolour the 45 plate "black", reset: the 45 plate is still "black" |
| SettingsPanel.ResetAfterCopyingColorEdit | src/routes/Settings.tsx:203-204 | the same steps with the copying edit: the second reset brings back "blue" |

## Left out

- The calculator page reads `settings.barbellWeight` once into its own state
  (`useState`, src/routes/App.tsx:172) and never re-reads it. So after the panel's bar toggle or
  "Reset to Default" the table keeps using the old bar. `PanelBarLeavesCalculator` shows this for
  the toggle; re-rendering and re-mounting the page are not modelled.
- Rendering is not modelled: React components, layout, transitions, the plate colours used for
  styling, and the `Plate` and `Weight` components.
- The 300 ms debounce of typed weights is not modelled. It is timer-driven; the model takes the
  max as a parameter.
- `localStorage` and JSON are not modelled. This covers reading and writing weights and
  settings, the `localStorage.removeItem` on reset, and the provider's merge of stored settings
  over its own defaults (src/SettingsContext.tsx). `updateSettings` is only the replacement of
  the stored value.
- Floating point is not modelled. Weights are exact reals, so the rounding errors of
  `max * percentage / 100` and of `%` on fractions do not appear. `NaN` and `Infinity` are
  excluded too.
- An undefined `barbellWeight` is not modelled. Neither default settings object defines it, and
  on the calculator page that would make the per-side weight `NaN`. `calculateWeight` takes the
  bar as a number. The settings model keeps the field optional (`None`).
- The captions `Math.round(max * percentage / 100)` (src/routes/App.tsx:280, src/App.tsx:207)
  are display text and are not modelled.
- The `sort((a, b) => b - a)` of the table percentages is a library call. The model proves the
  literal list is already strictly decreasing (`TablePercentagesSorted`) and uses it as written.
- In `groupPlates`, `Object.entries` has string keys that `Number` turns back into numbers. The
  model keys the dictionary by the numbers directly. The library sort is modelled by its
  outcome: the entries ordered largest plate first; the keys are distinct, so that order is
  unique.
- Negative per-side weights are modelled as written: a negative count inflates the weight.
  Their properties are not proved, because the row filter keeps them out of the table
  (`RowsLoadExactly` proves every shown per-side weight is non-negative on the 45 and 35 bars).
- `handleChange` accepts any string key. The model allows only the four settings fields.
- The "Save Settings" button (`alert` and closing the panel) is not modelled.
- The tab selection and the per-exercise weights are not modelled.
- src/index.tsx and the build configuration are not part of this model.
- PlateBreakdown.LoadPlates: it computes each count with `Count` and each remaining weight with
  `Rest`, rather than with a division and a product. `CountIsFloor` proves `Count` equals
  `Math.floor(weight / plate)`.
- SettingsPanel.SettingsStore.HandleBorderColorChange: it models the JavaScript `TypeError` for
  an index outside the array as `ok == false` with no change, rather than as an exception.

## Findings

| source | as written | input that shows it | evidently intended | confidence | as-written member | corrected member |
|---|---|---|---|---|---|---|
| src/routes/Settings.tsx:29-33 | the array is copied, but the colour is written into the shared entry object, which after a reset belongs to `defaultSettings` | reset, change the 45 plate's colour to "black", reset again: the 45 plate is still "black" | a reset restores the default colours, so the edited entry should be a new object | high for the model; not executed | SettingsPanel.ResetAfterColorEdit (over SettingsPanel.SettingsStore.HandleBorderColorChange) | SettingsPanel.ResetAfterCopyingColorEdit (over SettingsPanel.SettingsStore.HandleBorderColorChangeCopying) |
| src/routes/Settings.tsx:43 | the new id is the list length plus one | delete id 1 from the defaults, then add: the ids are 2, 3, 3, and a rename of the new entry also renames "BackSquat" | every exercise type has its own id: one past the largest id in use | medium; not executed | SettingsPanel.AddCollisionExample, SettingsPanel.RenameCollisionExample (over SettingsPanel.AddExerciseType) | SettingsPanel.AddExerciseTypeFresh with SettingsPanel.AddFreshThenDelete |
