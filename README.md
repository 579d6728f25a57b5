# Stepn Diary run ledger, in Dafny

Stepn Diary is a small React Native app that keeps a diary of "runs". Each run
is a table row with a run id, a date, the amount earned, the repair cost and
the derived profit. The app also shows a total profit. All of its logic lives
in the `Form` component (`src/components/Form.tsx`). This project models that
component's ledger and proves properties of it.

- `ledger.dfy`, module `Ledger`: the `Row` record and `initialRow`. It also has
  the pure list transformations the handlers build their new state from:
  - `calculateProfit`, with its "truthy" rule: `0` and `null` both count as absent;
  - `getIdOfLastRun` and the append of `addNewRow`;
  - the `filter` of `removeRow`;
  - the `map` shared by the three field handlers (`EditRow`, one `Change` per handler);
  - the Reset button's `[initialRow]`;
  - the `reduce` of `calculateTotalProfit`.

  It also defines the ledger invariant `WellFormed`. Under it, run ids strictly
  increase along the list, and therefore are unique. Every row's profit is the
  one `calculateProfit` derives from its amounts. Every run id is non-negative.
  The lemmas show that every operation keeps this invariant. They also show that
  under the invariant, "last run + 1" equals "max run + 1". An edit or removal
  of an id that is present changes exactly that row (`EditRowAt`,
  `RemoveRowAt`); one of an absent id changes nothing (`EditRowNoMatch`,
  `RemoveRowNoMatch`). Adding appends one row, and Reset replaces the whole
  ledger.
- `form.dfy`, module `FormComponent`: the class `Form`. Its field `rows` is the
  component's `useState` list, and each handler reassigns it. Its field `stored`
  is the ledger most recently handed to `storeData`. There is one method per
  handler. Each method's `ensures` ties the new `rows` to the `Ledger` function
  and keeps `Valid()`. The `ensures` also say whether the new ledger is
  persisted: the edit and remove handlers persist it, while `addNewRow` and Reset
  do not.
- `wiring.dfy`, module `Wiring`: how the table passes arguments to the
  handlers. Each cell passes its array position. The handlers, however, look
  for a row whose run id equals that argument. See "## Findings".

Numbers are unbounded integers, because the component only subtracts and sums
them. A `Date` is modelled as its time value in milliseconds. `initialRow` is
created once, when the module loads (`new Date()` at the top level). That is
why a new row and a reset row both carry that load-time date, not the current
date.

A new row gets the last row's run id + 1, not the largest run id + 1.
`NextRunIsMaxPlusOne` proves the two agree on every ledger that keeps the
invariant.

`+value` gives `NaN` for non-numeric text, and `0` for empty or
whitespace-only text. The model takes the parsed number as an integer input
(see "## Left out").

## Model

| member | source | states |
|---|---|---|
| `Ledger.InitialRow` | src/components/Form.tsx:17-23 | definition of `initialRow`; run 0, the load-time date, null amounts, and a profit that agrees with `CalculateProfit`; properties in `ResetIsWellFormed` |
| `Ledger.CalculateProfit` | src/components/Form.tsx:25-26 | definition; whenever it gives a profit, that profit agrees with the "both present" rule; when the "both present" rule has a profit and this one has none, an amount is 0; properties in `CalculateProfitDefinedIff` and `ProfitRuleVersusPresence` |
| `Ledger.CalculateProfitDefinedIff` | src/components/Form.tsx:25-26 | profit is present exactly when `earned` and `repairCost` are both present and non-zero, and then it is `earned - repairCost` |
| `Ledger.ProfitRuleVersusPresence` | src/components/Form.tsx:25-26 | the truthy rule differs from the "both present" rule exactly when both amounts are present and one of them is 0, and it then gives null |
| `Ledger.ProfitIgnoresOtherFields` | src/components/Form.tsx:25-26 | profit depends only on the two amounts, not on run, date or stored profit |
| `Ledger.ScenarioSingleRun` | src/components/Form.tsx:25-26 | earned 100 with repair cost 40 gives profit 60, and a total of 60 |
| `Ledger.ScenarioZeroRepairCost` | src/components/Form.tsx:25-26 | a zero repair cost suppresses the profit, and the row adds 0 to the total |
| `Ledger.LastRunId` | src/components/Form.tsx:28-29 | definition of `getIdOfLastRun`; -1 on an empty ledger, and on an increasing ledger at least every run id; properties in `NextRunIsMaxPlusOne` |
| `Ledger.IncreasingRunsAreUnique` | src/components/Form.tsx:28-29 | strictly increasing run ids are unique |
| `Ledger.MaxRun` | src/components/Form.tsx:28-29 | the largest run id: at least every row's id, and equal to one of them |
| `Ledger.NextRunIsMaxPlusOne` | src/components/Form.tsx:28-29 | on an increasing ledger, last id + 1 is 0 when the ledger is empty, otherwise max id + 1; it is greater than every id |
| `Ledger.AddNewRow` | src/components/Form.tsx:102-107 | definition of the list `addNewRow` builds; one more row, the old rows as prefix, and an increasing ledger stays increasing; properties in `AddNewRowAppendsOne` and `AddNewRowFreshRun` |
| `Ledger.AddNewRowAppendsOne` | src/components/Form.tsx:102-108 | adding appends exactly one row and keeps the old rows and their order; the new row has id last + 1 (0 when empty), the `initialRow` date, and null earned, repair cost and profit |
| `Ledger.AddNewRowFreshRun` | src/components/Form.tsx:102-108 | on an increasing ledger, the new row's id is max + 1 (0 when empty) and no other row has it |
| `Ledger.AddNewRowPreservesWellFormed` | src/components/Form.tsx:102-108 | adding a row keeps the ledger invariant |
| `Ledger.ScenarioTwoAdds` | src/components/Form.tsx:102-108 | starting from the initial row, two appends give run ids 0, 1, 2 |
| `Ledger.RemoveRow` | src/components/Form.tsx:110-111 | the result is no longer than the input, and no kept row has the removed id |
| `Ledger.RemoveRowMembers` | src/components/Form.tsx:110-111 | a row is kept exactly when it was in the ledger and its id differs from the removed one |
| `Ledger.RemoveRowNoMatch` | src/components/Form.tsx:110-111 | when no row has the id, removal returns the input unchanged |
| `Ledger.RemoveRowConcat` | src/components/Form.tsx:110-111 | removal works piecewise over a concatenation, so kept rows keep their relative order |
| `Ledger.RemoveRowAt` | src/components/Form.tsx:110-111 | on an increasing ledger, removing the id of the row at position k gives exactly the rows before k followed by the rows after k |
| `Ledger.RemoveRowPreservesIncreasing` | src/components/Form.tsx:110-111 | removal keeps run ids strictly increasing |
| `Ledger.RemoveRowPreservesWellFormed` | src/components/Form.tsx:110-114 | removal keeps the ledger invariant |
| `Ledger.EditRow` | src/components/Form.tsx:62-94 | length is kept; rows with another id are returned identical; each matching row gets the new field value, keeps its other input fields and its id, and has its profit re-derived |
| `Ledger.Amend` | src/components/Form.tsx:64 | definition of `{ ...row, field: value }`; the changed field takes the new value, every other input field, the id and the stored profit are kept; properties in `EditRow` |
| `Ledger.Recompute` | src/components/Form.tsx:66 | definition of `{ ...newRow, profit: calculateProfit(newRow) }`; the profit is the derived one and every other field is kept; properties in `EditRow` |
| `Ledger.EditRowNoMatch` | src/components/Form.tsx:62-94 | editing an id no row has leaves the ledger unchanged |
| `Ledger.EditRowPreservesWellFormed` | src/components/Form.tsx:62-94 | an edit never changes run ids, and it keeps the ledger invariant |
| `Ledger.EditRowAt` | src/components/Form.tsx:62-82 | on an increasing ledger, editing the id of the row at k replaces that row alone |
| `Ledger.DateEditKeepsProfit` | src/components/Form.tsx:84-94 | when profits are derived, a date change only replaces the matching rows' date; their profits and all other rows are unchanged |
| `Ledger.ResetRows` | src/components/Form.tsx:168 | definition of `[initialRow]`; one row with run 0, satisfying the invariant; properties in `ResetIsWellFormed` |
| `Ledger.ResetIsWellFormed` | src/components/Form.tsx:168 | reset gives one row with run 0 and null earned, repair cost and profit, and that ledger satisfies the invariant |
| `Ledger.ProfitStep` | src/components/Form.tsx:117 | definition of the `reduce` callback; skipping a null or zero profit is the same as adding it counted as 0 |
| `Ledger.ReduceProfit` | src/components/Form.tsx:117 | definition of the `reduce`, folding first to last; from any starting total it adds the sum of the profits, with null counting as 0 |
| `Ledger.TotalProfit` | src/components/Form.tsx:116-117 | definition of `calculateTotalProfit`; the total is the sum of all profits with null counting as 0, and it is 0 on an empty ledger |
| `Ledger.SumOfProfitsConcat` | src/components/Form.tsx:116-117 | the sum of profits over a concatenation is the sum of the two parts |
| `Ledger.TotalProfitAfterAdd` | src/components/Form.tsx:102-108 | adding a row leaves the total unchanged |
| `Ledger.TotalProfitAfterRemove` | src/components/Form.tsx:110-117 | removing the row at k lowers the total by exactly that row's profit |
| `Ledger.TotalProfitAfterEdit` | src/components/Form.tsx:62-82 | editing the row at k changes the total by exactly that row's change in profit |
| `FormComponent.Form.constructor` | src/components/Form.tsx:46 | the state starts as `[initialRow]`, with nothing persisted |
| `FormComponent.Form.HandleChangeEarned` | src/components/Form.tsx:62-71 | rows become the earned edit of the old rows; the invariant is kept; the new rows are persisted |
| `FormComponent.Form.HandleChangeRepairCost` | src/components/Form.tsx:73-82 | rows become the repair-cost edit of the old rows; the invariant is kept; the new rows are persisted |
| `FormComponent.Form.OnDateChange` | src/components/Form.tsx:85-94 | the matching rows get the picked date, and every other field and row is unchanged; the invariant is kept; the new rows are persisted |
| `FormComponent.Form.AddNewRow` | src/components/Form.tsx:102-108 | one row is appended with id max + 1 (0 when empty); old rows are kept; the invariant is kept; nothing is persisted |
| `FormComponent.Form.RemoveRow` | src/components/Form.tsx:110-114 | exactly the rows with another id are kept; the invariant is kept; the new rows are persisted |
| `FormComponent.Form.Reset` | src/components/Form.tsx:168 | rows become `[initialRow]`; the invariant is kept; nothing is persisted |
| `FormComponent.Form.CalculateTotalProfit` | src/components/Form.tsx:116-117 | the total is the sum of the rows' profits, null counting as 0, and 0 on an empty ledger |
| `FormComponent.Form.PressRemove` | src/components/Form.tsx:131-139 | with the corrected wiring, pressing remove on a shown row removes that row and only it |
| `FormComponent.Form.PressEdit` | src/components/Form.tsx:142-156 | with the corrected wiring, an input on a shown row edits that row and only it |
| `Wiring.RemovePressedAsWritten` | src/components/Form.tsx:131-139 | definition of the wiring as written; it keeps exactly the rows whose run id differs from the pressed position, whatever row is shown there; properties in `RemovePressedAsWrittenHitsWrongRow` |
| `Wiring.EditPressedAsWritten` | src/components/Form.tsx:142-156 | definition of the wiring as written; every row whose run id differs from the pressed position is left identical; properties in `EditPressedAsWrittenHitsWrongRow` |
| `Wiring.RemovePressed` | src/components/Form.tsx:131-139 | definition of the corrected wiring; the pressed row is gone and no row is added; properties in `RemovePressedRemovesThatRow` |
| `Wiring.EditPressed` | src/components/Form.tsx:142-156 | definition of the corrected wiring; the pressed row gets the change and a derived profit; properties in `EditPressedEditsThatRow` |
| `Wiring.GapLedgerRuns` | src/components/Form.tsx:131-135 | the sequence reset, add, add, remove the middle row, add leads to run ids 0, 2, 3 at positions 0, 1, 2 |
| `Wiring.RemovePressedAsWrittenHitsWrongRow` | src/components/Form.tsx:131-139 | as written, pressing remove on the third row shown of that ledger removes the second row |
| `Wiring.EditPressedAsWrittenHitsWrongRow` | src/components/Form.tsx:142-156 | as written, typing into the third row shown of that ledger edits the second row and leaves the third unchanged |
| `Wiring.RemovePressedRemovesThatRow` | src/components/Form.tsx:131-139 | keying removal on the shown row's run id removes exactly that row |
| `Wiring.EditPressedEditsThatRow` | src/components/Form.tsx:142-156 | keying edits on the shown row's run id edits exactly that row |

## Left out

- Persistence (`storeData` and `getData`, `AsyncStorage`) is not modelled: it is asynchronous I/O through a foreign library, and its errors are swallowed. The model records only the ledger handed to `storeData`, in the field `stored`.
- Loading saved rows when the component mounts is not modelled, because it is an asynchronous read with JSON and `Date` parsing. The invariant covers what is persisted (`stored`), so a faithful reload would keep it.
- The native date picker (`DateTimePickerAndroid.open`) is not modelled. Only its `onChange` callback is, and it takes the picked date as an input. What the picker passes when the user dismisses it is not part of this model.
- FormComponent.Form.HandleChangeEarned: takes the number that `+value` would give as an integer. JavaScript's string-to-number coercion (`+value` gives 0 for empty or whitespace-only text, `NaN` for non-numeric text, and a possibly fractional number otherwise) and float arithmetic are not modelled.
- FormComponent.Form.HandleChangeRepairCost: takes the number that `+value` would give as an integer, for the same reason.
- Each handler in the model reads the current `rows`. In React, a handler reads the `rows` of the render that created it. Stale closures and batched state updates are not modelled.
- Rendering is not modelled: the table, `toLocaleDateString`, the profit cell, and the styles. The only part kept is which argument each cell passes to a handler (module `Wiring`).
- `App.tsx` only wraps the form in a scroll view, so it is not part of this model.

## Findings

| source | as written | input that shows it | evidently intended | confidence | as-written member | corrected member |
|---|---|---|---|---|---|---|
| src/components/Form.tsx:131-139 | the remove icon of the row at position `index` calls `removeRow(index)`, which removes the row whose run id is `index` | from the initial row: add, add, remove the row at position 1, add. This gives run ids 0, 2, 3. Pressing remove on position 2 then removes run 2, shown at position 1, and keeps run 3 | remove the row the icon is drawn on, i.e. `removeRow(row.run)` | high (not executed) | `Wiring.RemovePressedAsWrittenHitsWrongRow` | `Wiring.RemovePressedRemovesThatRow` |
| src/components/Form.tsx:142-156 | the date, earned and repair-cost inputs of the row at position `index` pass `index` to handlers that match on `row.run === index` | on the same ledger (run ids 0, 2, 3), typing an amount into position 2 edits run 2 at position 1 and leaves position 2 unchanged | edit the row the input is drawn on, i.e. pass `row.run` | high (not executed) | `Wiring.EditPressedAsWrittenHitsWrongRow` | `Wiring.EditPressedEditsThatRow` |
