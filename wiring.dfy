/**
 * How the table wires its cells to the handlers. The rows are rendered with
 * `rows.map((row, index) => …)`, and each cell passes that `index`, the row's
 * position on screen, to a handler that looks for the row whose RUN ID
 * equals it. The two agree until a row other than the last is removed;
 * after that, until a Reset, a cell at or past the gap acts on another row
 * or on none.
 */
module Wiring {
  import Ledger

  /** As written: the remove icon of the row shown at `position` calls `removeRow(position)`. */
  function RemovePressedAsWritten(rows: seq<Ledger.Row>, position: nat): (r: seq<Ledger.Row>)
    ensures forall x :: x in r <==> x in rows && x.run != position
  {
    Ledger.RemoveRowMembers(rows, position);
    Ledger.RemoveRow(rows, position)
  }

  /** As written: an input of the row shown at `position` edits the row whose run id is `position`. */
  function EditPressedAsWritten(rows: seq<Ledger.Row>, position: nat, c: Ledger.Change): (r: seq<Ledger.Row>)
    ensures |r| == |rows|
    ensures forall i :: 0 <= i < |rows| && rows[i].run != position ==> r[i] == rows[i]
  {
    Ledger.EditRow(rows, position, c)
  }

  /** Intended: the remove icon removes the row it is drawn on. */
  function RemovePressed(rows: seq<Ledger.Row>, position: nat): (r: seq<Ledger.Row>)
    requires position < |rows|
    ensures rows[position] !in r
    ensures forall x :: x in r ==> x in rows
  {
    Ledger.RemoveRowMembers(rows, rows[position].run);
    Ledger.RemoveRow(rows, rows[position].run)
  }

  /** Intended: an input edits the row it is drawn on. */
  function EditPressed(rows: seq<Ledger.Row>, position: nat, c: Ledger.Change): (r: seq<Ledger.Row>)
    requires position < |rows|
    ensures |r| == |rows|
    ensures Ledger.Applied(rows[position], c, r[position])
    ensures r[position].profit == Ledger.CalculateProfit(r[position])
  {
    Ledger.EditRow(rows, rows[position].run, c)
  }

  /**
   * A reachable ledger whose positions and run ids disagree: start from the
   * single initial row, add two rows, press remove on the middle one (its
   * position and run id are both 1, so this works), add a row again.
   */
  function GapLedger(loadTime: Ledger.Date): seq<Ledger.Row>
  {
    var three := Ledger.AddNewRow(Ledger.AddNewRow(Ledger.ResetRows(loadTime), loadTime), loadTime);
    Ledger.AddNewRow(RemovePressedAsWritten(three, 1), loadTime)
  }

  lemma GapLedgerRuns(loadTime: Ledger.Date)
    ensures var rows := GapLedger(loadTime);
            |rows| == 3 && rows[0].run == 0 && rows[1].run == 2 && rows[2].run == 3
  {
    var three := Ledger.AddNewRow(Ledger.AddNewRow(Ledger.ResetRows(loadTime), loadTime), loadTime);
    var t := Ledger.InitialRow(loadTime);
    assert three == [t, t.(run := 1), t.(run := 2)];
    assert Ledger.StrictlyIncreasing(three);
    Ledger.RemoveRowAt(three, 1);
    assert three[..1] + three[2..] == [t, t.(run := 2)];
  }

  /**
   * On that ledger, pressing remove on the third row shown (run id 3) removes
   * the second row (run id 2) and keeps the one pressed.
   */
  lemma RemovePressedAsWrittenHitsWrongRow(loadTime: Ledger.Date)
    ensures var rows := GapLedger(loadTime);
            |rows| == 3 &&
            RemovePressedAsWritten(rows, 2) == [rows[0], rows[2]] &&
            RemovePressed(rows, 2) == [rows[0], rows[1]]
  {
    GapLedgerRuns(loadTime);
    var rows := GapLedger(loadTime);
    assert Ledger.StrictlyIncreasing(rows);
    Ledger.RemoveRowAt(rows, 1);
    assert rows[..1] + rows[2..] == [rows[0], rows[2]];
    Ledger.RemoveRowAt(rows, 2);
    assert rows[..2] + rows[3..] == [rows[0], rows[1]];
  }

  /**
   * On that ledger, typing an amount into the third row shown edits the
   * second row and leaves the third as it was.
   */
  lemma EditPressedAsWrittenHitsWrongRow(loadTime: Ledger.Date, amount: int)
    ensures var rows := GapLedger(loadTime);
            var r := EditPressedAsWritten(rows, 2, Ledger.SetEarned(amount));
            |rows| == 3 && |r| == 3 &&
            r[1].earned == Ledger.Some(amount) && r[2] == rows[2]
  {
    GapLedgerRuns(loadTime);
  }

  /** Corrected wiring: under the ledger invariant the pressed row, and only it, is removed. */
  lemma {:induction false} RemovePressedRemovesThatRow(rows: seq<Ledger.Row>, position: nat)
    requires Ledger.StrictlyIncreasing(rows) && position < |rows|
    ensures RemovePressed(rows, position) == rows[..position] + rows[position + 1..]
  {
    Ledger.RemoveRowAt(rows, position);
  }

  /** Corrected wiring: under the ledger invariant the pressed row, and only it, is edited. */
  lemma {:induction false} EditPressedEditsThatRow(rows: seq<Ledger.Row>, position: nat, c: Ledger.Change)
    requires Ledger.StrictlyIncreasing(rows) && position < |rows|
    ensures |EditPressed(rows, position, c)| == |rows|
    ensures forall i :: 0 <= i < |rows| && i != position ==> EditPressed(rows, position, c)[i] == rows[i]
    ensures Ledger.Applied(rows[position], c, EditPressed(rows, position, c)[position])
  {
    Ledger.EditRowAt(rows, position, c);
  }
}
