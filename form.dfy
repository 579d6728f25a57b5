/**
 * The `Form` component's state and handlers. `rows` is the component's
 * `useState` list, which every handler replaces with a list it builds from
 * the old one; `stored` is the ledger most recently handed to `storeData`.
 */
module FormComponent {
  import Ledger
  import Wiring

  class Form {
    /** `initialRow`, whose date was taken once, when the module was loaded. */
    const initialRow: Ledger.Row
    var rows: seq<Ledger.Row>
    var stored: Ledger.Option<seq<Ledger.Row>>

    /** Ids strictly increase, profits are derived, and so is what was persisted. */
    ghost predicate Valid()
      reads this
    {
      && initialRow == Ledger.InitialRow(initialRow.date)
      && Ledger.WellFormed(rows)
      && (stored.Some? ==> Ledger.WellFormed(stored.value))
    }

    /** `useState([initialRow])`; nothing has been persisted yet. */
    constructor (loadTime: Ledger.Date)
      ensures Valid()
      ensures initialRow == Ledger.InitialRow(loadTime)
      ensures rows == [initialRow] && stored == Ledger.None
    {
      initialRow := Ledger.InitialRow(loadTime);
      rows := Ledger.ResetRows(loadTime);
      stored := Ledger.None;
      Ledger.ResetIsWellFormed(loadTime);
    }

    /** `handleChangeEarned(value, index)`, where `amount` is the number `+value` gives. */
    method HandleChangeEarned(amount: int, index: int)
      requires Valid()
      modifies this
      ensures Valid()
      ensures rows == Ledger.EditRow(old(rows), index, Ledger.SetEarned(amount))
      ensures stored == Ledger.Some(rows)
    {
      Ledger.EditRowPreservesWellFormed(rows, index, Ledger.SetEarned(amount));
      rows := Ledger.EditRow(rows, index, Ledger.SetEarned(amount));
      stored := Ledger.Some(rows);
    }

    /** `handleChangeRepairCost(value, index)`, where `amount` is the number `+value` gives. */
    method HandleChangeRepairCost(amount: int, index: int)
      requires Valid()
      modifies this
      ensures Valid()
      ensures rows == Ledger.EditRow(old(rows), index, Ledger.SetRepairCost(amount))
      ensures stored == Ledger.Some(rows)
    {
      Ledger.EditRowPreservesWellFormed(rows, index, Ledger.SetRepairCost(amount));
      rows := Ledger.EditRow(rows, index, Ledger.SetRepairCost(amount));
      stored := Ledger.Some(rows);
    }

    /**
     * The `onChange` callback `handleDateChange(value, index)` gives the date
     * picker, called with the picked date. The profits stay as they were.
     */
    method OnDateChange(selectedDate: Ledger.Date, index: int)
      requires Valid()
      modifies this
      ensures Valid()
      ensures rows == Ledger.EditRow(old(rows), index, Ledger.SetDate(selectedDate))
      ensures forall i :: 0 <= i < |rows| ==>
                rows[i] == if old(rows)[i].run == index then old(rows)[i].(date := selectedDate) else old(rows)[i]
      ensures stored == Ledger.Some(rows)
    {
      Ledger.EditRowPreservesWellFormed(rows, index, Ledger.SetDate(selectedDate));
      Ledger.DateEditKeepsProfit(rows, index, selectedDate);
      rows := Ledger.EditRow(rows, index, Ledger.SetDate(selectedDate));
      stored := Ledger.Some(rows);
    }

    /** `addNewRow`: appends a row with a fresh id; it is not persisted. */
    method AddNewRow()
      requires Valid()
      modifies this
      ensures Valid()
      ensures rows == Ledger.AddNewRow(old(rows), initialRow.date)
      ensures |rows| == |old(rows)| + 1 && rows[..|old(rows)|] == old(rows)
      ensures rows[|old(rows)|].run == if old(rows) == [] then 0 else Ledger.MaxRun(old(rows)) + 1
      ensures stored == old(stored)
    {
      Ledger.AddNewRowPreservesWellFormed(rows, initialRow.date);
      Ledger.AddNewRowFreshRun(rows, initialRow.date);
      rows := Ledger.AddNewRow(rows, initialRow.date);
    }

    /** `removeRow(index)`: drops the rows whose run id is `index`, then persists. */
    method RemoveRow(index: int)
      requires Valid()
      modifies this
      ensures Valid()
      ensures rows == Ledger.RemoveRow(old(rows), index)
      ensures forall x :: x in rows <==> x in old(rows) && x.run != index
      ensures stored == Ledger.Some(rows)
    {
      Ledger.RemoveRowPreservesWellFormed(rows, index);
      Ledger.RemoveRowMembers(rows, index);
      rows := Ledger.RemoveRow(rows, index);
      stored := Ledger.Some(rows);
    }

    /** The Reset button: back to `[initialRow]`; it is not persisted. */
    method Reset()
      requires Valid()
      modifies this
      ensures Valid()
      ensures rows == [initialRow]
      ensures stored == old(stored)
    {
      Ledger.ResetIsWellFormed(initialRow.date);
      rows := Ledger.ResetRows(initialRow.date);
    }

    /** The remove icon of the row shown at `position`, wired to that row's run id. */
    method PressRemove(position: nat)
      requires Valid() && position < |rows|
      modifies this
      ensures Valid()
      ensures rows == Wiring.RemovePressed(old(rows), position)
      ensures rows == old(rows)[..position] + old(rows)[position + 1..]
      ensures stored == Ledger.Some(rows)
    {
      Wiring.RemovePressedRemovesThatRow(rows, position);
      RemoveRow(rows[position].run);
    }

    /** An input of the row shown at `position`, wired to that row's run id. */
    method PressEdit(position: nat, c: Ledger.Change)
      requires Valid() && position < |rows|
      modifies this
      ensures Valid()
      ensures rows == Wiring.EditPressed(old(rows), position, c)
      ensures |rows| == |old(rows)|
      ensures forall i :: 0 <= i < |rows| && i != position ==> rows[i] == old(rows)[i]
      ensures Ledger.Applied(old(rows)[position], c, rows[position])
      ensures stored == Ledger.Some(rows)
    {
      Wiring.EditPressedEditsThatRow(rows, position, c);
      var id := rows[position].run;
      match c
      case SetEarned(amount) => HandleChangeEarned(amount, id);
      case SetRepairCost(amount) => HandleChangeRepairCost(amount, id);
      case SetDate(d) => OnDateChange(d, id);
    }

    /** `calculateTotalProfit`: the sum of the rows' profits, null counting as 0. */
    function CalculateTotalProfit(): (total: int)
      reads this
      ensures total == Ledger.SumOfProfits(rows)
      ensures rows == [] ==> total == 0
    {
      Ledger.TotalProfit(rows)
    }
  }
}
