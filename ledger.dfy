/**
 * The run ledger of the diary form: the `Row` records the table shows and
 * the pure list transformations the form's handlers build their new state
 * from (a `map` for field edits, spread-append for a new row, a `filter`
 * for removal, a `reduce` for the total).
 *
 * JavaScript numbers are modelled as unbounded integers: the component only
 * subtracts and sums them.
 */
module Ledger {

  datatype Option<+T> = None | Some(value: T)

  /** A JavaScript `Date`: a time value, in milliseconds since the epoch. */
  datatype Date = Date(millis: int)

  /** One run of the diary. `run` is the row's identifier, shown as `run + 1`. */
  datatype Row = Row(
    run: int,
    date: Date,
    earned: Option<int>,
    repairCost: Option<int>,
    profit: Option<int>)

  /** JavaScript truthiness of a `number | null`: both `null` and `0` are falsy. */
  predicate Truthy(x: Option<int>)
  {
    x.Some? && x.value != 0
  }

  /** `initialRow`; its date is the time at which the component's module was loaded. */
  function InitialRow(loadTime: Date): (r: Row)
    ensures r.run == 0 && r.date == loadTime
    ensures r.earned == None && r.repairCost == None
    ensures r.profit == CalculateProfit(r)
  {
    Row(0, loadTime, None, None, None)
  }

  // ---------------------------------------------------------------------
  // Profit of one row

  /** `calculateProfit`: `earned - repairCost` when both are truthy, else null. */
  function CalculateProfit(row: Row): (p: Option<int>)
    ensures p.Some? ==> p == PresentProfit(row)
    ensures PresentProfit(row).Some? && p.None? ==>
              row.earned.value == 0 || row.repairCost.value == 0
  {
    if Truthy(row.earned) && Truthy(row.repairCost)
    then Some(row.earned.value - row.repairCost.value)
    else None
  }

  /**
   * Reference rule: profit is defined as soon as both amounts are present,
   * whatever their value.
   */
  function PresentProfit(row: Row): Option<int>
  {
    match (row.earned, row.repairCost)
    case (Some(e), Some(c)) => Some(e - c)
    case _ => None
  }

  /** The profit a row holds, with null counting as 0. */
  function ProfitOrZero(row: Row): int
  {
    match row.profit
    case None => 0
    case Some(p) => p
  }

  lemma CalculateProfitDefinedIff(row: Row)
    ensures CalculateProfit(row).Some? <==>
              row.earned.Some? && row.repairCost.Some? &&
              row.earned.value != 0 && row.repairCost.value != 0
    ensures CalculateProfit(row).Some? ==>
              CalculateProfit(row).value == row.earned.value - row.repairCost.value
  {
  }

  /**
   * The truthy rule departs from the presence rule exactly when both amounts
   * are present and one of them is zero; it then yields null.
   */
  lemma ProfitRuleVersusPresence(row: Row)
    ensures CalculateProfit(row) != PresentProfit(row) <==>
              row.earned.Some? && row.repairCost.Some? &&
              (row.earned.value == 0 || row.repairCost.value == 0)
    ensures CalculateProfit(row) != PresentProfit(row) ==> CalculateProfit(row) == None
  {
  }

  /** Profit depends on the two amounts only, never on `run`, `date` or the stored `profit`. */
  lemma ProfitIgnoresOtherFields(a: Row, b: Row)
    requires a.earned == b.earned && a.repairCost == b.repairCost
    ensures CalculateProfit(a) == CalculateProfit(b)
  {
  }

  // ---------------------------------------------------------------------
  // Ledger invariants

  /** Run ids increase strictly along the ledger. */
  ghost predicate StrictlyIncreasing(rows: seq<Row>)
  {
    forall i, j :: 0 <= i < j < |rows| ==> rows[i].run < rows[j].run
  }

  /** No two rows share a run id. */
  ghost predicate UniqueRuns(rows: seq<Row>)
  {
    forall i, j :: 0 <= i < |rows| && 0 <= j < |rows| && rows[i].run == rows[j].run ==> i == j
  }

  /** Every row's `profit` is the one `calculateProfit` derives from its amounts. */
  ghost predicate ProfitsDerived(rows: seq<Row>)
  {
    forall x :: x in rows ==> x.profit == CalculateProfit(x)
  }

  ghost predicate RunsNonNegative(rows: seq<Row>)
  {
    forall x :: x in rows ==> x.run >= 0
  }

  /** The invariant every reachable ledger keeps. */
  ghost predicate WellFormed(rows: seq<Row>)
  {
    StrictlyIncreasing(rows) && ProfitsDerived(rows) && RunsNonNegative(rows)
  }

  lemma IncreasingRunsAreUnique(rows: seq<Row>)
    requires StrictlyIncreasing(rows)
    ensures UniqueRuns(rows)
  {
  }

  // ---------------------------------------------------------------------
  // Next run id

  /** `getIdOfLastRun`: the run id of the last row, or -1 for an empty ledger. */
  function LastRunId(rows: seq<Row>): (r: int)
    ensures rows == [] ==> r == -1
    ensures StrictlyIncreasing(rows) ==> forall i :: 0 <= i < |rows| ==> rows[i].run <= r
  {
    if |rows| > 0 then rows[|rows| - 1].run else -1
  }

  /** The largest run id of a non-empty ledger. */
  function MaxRun(rows: seq<Row>): (m: int)
    requires rows != []
    ensures forall i :: 0 <= i < |rows| ==> rows[i].run <= m
    ensures exists i :: 0 <= i < |rows| && rows[i].run == m
    decreases |rows|
  {
    if |rows| == 1 then rows[0].run
    else
      var rest := MaxRun(rows[1..]);
      assert forall i :: 1 <= i < |rows| ==> rows[i] == rows[1..][i - 1];
      if rows[0].run >= rest then rows[0].run else rest
  }

  /** Under the invariant, "last run + 1" is "max run + 1", and 0 on an empty ledger. */
  lemma {:induction false} NextRunIsMaxPlusOne(rows: seq<Row>)
    requires StrictlyIncreasing(rows)
    ensures rows == [] ==> LastRunId(rows) + 1 == 0
    ensures rows != [] ==> LastRunId(rows) + 1 == MaxRun(rows) + 1
    ensures forall i :: 0 <= i < |rows| ==> rows[i].run < LastRunId(rows) + 1
  {
    if rows != [] {
      var k :| 0 <= k < |rows| && rows[k].run == MaxRun(rows);
      var last := |rows| - 1;
      if k < last {
        assert rows[k].run < rows[last].run;
      }
      forall i | 0 <= i < |rows| ensures rows[i].run < LastRunId(rows) + 1 {
        if i < last {
          assert rows[i].run < rows[last].run;
        }
      }
    }
  }

  // ---------------------------------------------------------------------
  // Append

  /** `addNewRow`: a copy of `initialRow` with the next run id, spread after the rows. */
  function AddNewRow(rows: seq<Row>, loadTime: Date): (r: seq<Row>)
    ensures |r| == |rows| + 1 && r[..|rows|] == rows
    ensures StrictlyIncreasing(rows) ==> StrictlyIncreasing(r)
  {
    rows + [InitialRow(loadTime).(run := LastRunId(rows) + 1)]
  }

  lemma AddNewRowAppendsOne(rows: seq<Row>, loadTime: Date)
    ensures |AddNewRow(rows, loadTime)| == |rows| + 1
    ensures AddNewRow(rows, loadTime)[..|rows|] == rows
    ensures AddNewRow(rows, loadTime)[|rows|].run ==
              if rows == [] then 0 else rows[|rows| - 1].run + 1
    ensures AddNewRow(rows, loadTime)[|rows|].date == loadTime
    ensures AddNewRow(rows, loadTime)[|rows|].earned == None
    ensures AddNewRow(rows, loadTime)[|rows|].repairCost == None
    ensures AddNewRow(rows, loadTime)[|rows|].profit == None
  {
  }

  /** The appended row's id is max + 1 (0 on an empty ledger) and is used by no other row. */
  lemma {:induction false} AddNewRowFreshRun(rows: seq<Row>, loadTime: Date)
    requires StrictlyIncreasing(rows)
    ensures AddNewRow(rows, loadTime)[|rows|].run == if rows == [] then 0 else MaxRun(rows) + 1
    ensures forall i :: 0 <= i < |rows| ==> rows[i].run != AddNewRow(rows, loadTime)[|rows|].run
  {
    NextRunIsMaxPlusOne(rows);
  }

  lemma {:induction false} AddNewRowPreservesWellFormed(rows: seq<Row>, loadTime: Date)
    requires WellFormed(rows)
    ensures WellFormed(AddNewRow(rows, loadTime))
  {
    NextRunIsMaxPlusOne(rows);
    var r := AddNewRow(rows, loadTime);
    forall i, j | 0 <= i < j < |r| ensures r[i].run < r[j].run {
      if j < |rows| {
        assert r[i] == rows[i] && r[j] == rows[j];
      }
    }
    assert LastRunId(rows) + 1 >= 0 by {
      if rows != [] {
        assert rows[|rows| - 1] in rows;
      }
    }
  }

  // ---------------------------------------------------------------------
  // Removal

  /** `removeRow`: keeps the rows whose run id differs from `id`, in order. */
  function RemoveRow(rows: seq<Row>, id: int): (r: seq<Row>)
    ensures |r| <= |rows|
    ensures forall i :: 0 <= i < |r| ==> r[i].run != id
    decreases |rows|
  {
    if rows == [] then []
    else (if rows[0].run != id then [rows[0]] else []) + RemoveRow(rows[1..], id)
  }

  /** A row survives removal exactly when it was there and carries another id. */
  lemma {:induction false} RemoveRowMembers(rows: seq<Row>, id: int)
    ensures forall x :: x in RemoveRow(rows, id) <==> x in rows && x.run != id
    decreases |rows|
  {
    if rows != [] {
      RemoveRowMembers(rows[1..], id);
      assert forall x :: x in rows <==> x == rows[0] || x in rows[1..];
    }
  }

  /** With no row carrying `id`, removal returns the ledger unchanged. */
  lemma {:induction false} RemoveRowNoMatch(rows: seq<Row>, id: int)
    requires forall x :: x in rows ==> x.run != id
    ensures RemoveRow(rows, id) == rows
    decreases |rows|
  {
    if rows != [] {
      RemoveRowNoMatch(rows[1..], id);
      assert [rows[0]] + rows[1..] == rows;
    }
  }

  /** Removal works piecewise, so the kept rows keep their relative order. */
  lemma {:induction false} RemoveRowConcat(a: seq<Row>, b: seq<Row>, id: int)
    ensures RemoveRow(a + b, id) == RemoveRow(a, id) + RemoveRow(b, id)
    decreases |a|
  {
    if a == [] {
      assert a + b == b;
    } else {
      assert (a + b)[0] == a[0];
      assert (a + b)[1..] == a[1..] + b;
      RemoveRowConcat(a[1..], b, id);
    }
  }

  /** A ledger is the rows before `k`, the row at `k` and the rows after it. */
  lemma SplitAt(rows: seq<Row>, k: nat)
    requires k < |rows|
    ensures rows == rows[..k] + ([rows[k]] + rows[k + 1..])
  {
  }

  /** Under the invariant, only the row at `k` carries the run id `rows[k].run`. */
  lemma RunOnlyAt(rows: seq<Row>, k: nat)
    requires StrictlyIncreasing(rows) && k < |rows|
    ensures forall x :: x in rows[..k] ==> x.run != rows[k].run
    ensures forall x :: x in rows[k + 1..] ==> x.run != rows[k].run
  {
    forall x | x in rows[..k] ensures x.run < rows[k].run {
      var i :| 0 <= i < k && rows[..k][i] == x;
      assert rows[i] == x;
    }
    forall x | x in rows[k + 1..] ensures rows[k].run < x.run {
      var i :| 0 <= i < |rows| - k - 1 && rows[k + 1..][i] == x;
      assert rows[k + 1 + i] == x;
    }
  }

  /** Removing from `before + [x] + after`, where only `x` carries the id. */
  lemma {:induction false} RemoveRowSplice(before: seq<Row>, x: Row, after: seq<Row>)
    requires forall y :: y in before ==> y.run != x.run
    requires forall y :: y in after ==> y.run != x.run
    ensures RemoveRow(before + ([x] + after), x.run) == before + after
  {
    RemoveRowNoMatch(before, x.run);
    RemoveRowNoMatch(after, x.run);
    assert RemoveRow([x], x.run) == [] by {
      assert [x][1..] == [];
    }
    RemoveRowConcat([x], after, x.run);
    assert RemoveRow([x] + after, x.run) == after by {
      assert [] + after == after;
    }
    RemoveRowConcat(before, [x] + after, x.run);
  }

  /** Under the invariant, removing the id of the row at `k` drops exactly that row. */
  lemma {:induction false} RemoveRowAt(rows: seq<Row>, k: nat)
    requires StrictlyIncreasing(rows) && k < |rows|
    ensures RemoveRow(rows, rows[k].run) == rows[..k] + rows[k + 1..]
  {
    RunOnlyAt(rows, k);
    RemoveRowSplice(rows[..k], rows[k], rows[k + 1..]);
    SplitAt(rows, k);
  }

  /** The tail of an increasing ledger is increasing and lies above its head. */
  lemma IncreasingTail(rows: seq<Row>)
    requires StrictlyIncreasing(rows) && rows != []
    ensures StrictlyIncreasing(rows[1..])
    ensures forall x :: x in rows[1..] ==> rows[0].run < x.run
  {
    forall x | x in rows[1..] ensures rows[0].run < x.run {
      var i :| 0 <= i < |rows[1..]| && rows[1..][i] == x;
      assert rows[i + 1] == x;
    }
  }

  /** Putting a row below every row of an increasing ledger keeps it increasing. */
  lemma IncreasingCons(x: Row, tail: seq<Row>)
    requires StrictlyIncreasing(tail)
    requires forall y :: y in tail ==> x.run < y.run
    ensures StrictlyIncreasing([x] + tail)
  {
    var r := [x] + tail;
    forall i, j | 0 <= i < j < |r| ensures r[i].run < r[j].run {
      assert r[j] == tail[j - 1];
      if i == 0 {
        assert tail[j - 1] in tail;
      } else {
        assert r[i] == tail[i - 1];
      }
    }
  }

  lemma {:induction false} RemoveRowPreservesIncreasing(rows: seq<Row>, id: int)
    requires StrictlyIncreasing(rows)
    ensures StrictlyIncreasing(RemoveRow(rows, id))
    decreases |rows|
  {
    if rows != [] {
      IncreasingTail(rows);
      RemoveRowPreservesIncreasing(rows[1..], id);
      var tail := RemoveRow(rows[1..], id);
      RemoveRowMembers(rows[1..], id);
      if rows[0].run != id {
        IncreasingCons(rows[0], tail);
      } else {
        assert RemoveRow(rows, id) == [] + tail;
      }
    }
  }

  lemma {:induction false} RemoveRowPreservesWellFormed(rows: seq<Row>, id: int)
    requires WellFormed(rows)
    ensures WellFormed(RemoveRow(rows, id))
  {
    RemoveRowPreservesIncreasing(rows, id);
    RemoveRowMembers(rows, id);
  }

  // ---------------------------------------------------------------------
  // Field edits

  /** The edit a handler applies to the row it is keyed on. */
  datatype Change =
    | SetEarned(amount: int)
    | SetRepairCost(amount: int)
    | SetDate(date: Date)

  /** `{ ...row, field: value }`. */
  function Amend(row: Row, c: Change): (r: Row)
    ensures Applied(row, c, r) && r.profit == row.profit
  {
    match c
    case SetEarned(v) => row.(earned := Some(v))
    case SetRepairCost(v) => row.(repairCost := Some(v))
    case SetDate(d) => row.(date := d)
  }

  /** `{ ...newRow, profit: calculateProfit(newRow) }`. */
  function Recompute(row: Row): (r: Row)
    ensures r.profit == CalculateProfit(r)
    ensures r.(profit := row.profit) == row
  {
    row.(profit := CalculateProfit(row))
  }

  /** `after` is `before` with the change applied and every other input field kept. */
  ghost predicate Applied(before: Row, c: Change, after: Row)
  {
    && after.run == before.run
    && after.earned == (if c.SetEarned? then Some(c.amount) else before.earned)
    && after.repairCost == (if c.SetRepairCost? then Some(c.amount) else before.repairCost)
    && after.date == (if c.SetDate? then c.date else before.date)
  }

  /**
   * The `rows.map` of `handleChangeEarned`, `handleChangeRepairCost` and the
   * date picker's `onChange`: the rows whose run id is `id` get the change
   * and a recomputed profit, every other row is kept as it is.
   */
  function EditRow(rows: seq<Row>, id: int, c: Change): (r: seq<Row>)
    ensures |r| == |rows|
    ensures forall i :: 0 <= i < |rows| && rows[i].run != id ==> r[i] == rows[i]
    ensures forall i :: 0 <= i < |rows| && rows[i].run == id ==>
              Applied(rows[i], c, r[i]) && r[i].profit == CalculateProfit(r[i])
  {
    seq(|rows|, i requires 0 <= i < |rows| =>
      if rows[i].run == id then Recompute(Amend(rows[i], c)) else rows[i])
  }

  lemma EditRowNoMatch(rows: seq<Row>, id: int, c: Change)
    requires forall i :: 0 <= i < |rows| ==> rows[i].run != id
    ensures EditRow(rows, id, c) == rows
  {
  }

  /** An edit never touches run ids, and keeps every profit derived. */
  lemma {:induction false} EditRowPreservesWellFormed(rows: seq<Row>, id: int, c: Change)
    requires WellFormed(rows)
    ensures forall i :: 0 <= i < |rows| ==> EditRow(rows, id, c)[i].run == rows[i].run
    ensures WellFormed(EditRow(rows, id, c))
  {
    var r := EditRow(rows, id, c);
    forall x | x in r ensures x.profit == CalculateProfit(x) && x.run >= 0 {
      var i :| 0 <= i < |r| && r[i] == x;
      assert rows[i] in rows;
    }
  }

  /**
   * Picking a date recomputes profit, but date does not feed it: on a ledger
   * whose profits are derived, only the matching rows' date changes.
   */
  lemma {:induction false} DateEditKeepsProfit(rows: seq<Row>, id: int, d: Date)
    requires ProfitsDerived(rows)
    ensures forall i :: 0 <= i < |rows| ==>
              EditRow(rows, id, SetDate(d))[i] ==
                if rows[i].run == id then rows[i].(date := d) else rows[i]
  {
    forall i | 0 <= i < |rows| && rows[i].run == id
      ensures EditRow(rows, id, SetDate(d))[i] == rows[i].(date := d)
    {
      assert rows[i] in rows;
      ProfitIgnoresOtherFields(rows[i], rows[i].(date := d));
    }
  }

  /** Under the invariant the edited rows are exactly the one at position `k`. */
  lemma {:induction false} EditRowAt(rows: seq<Row>, k: nat, c: Change)
    requires StrictlyIncreasing(rows) && k < |rows|
    ensures EditRow(rows, rows[k].run, c) ==
              rows[..k] + [Recompute(Amend(rows[k], c))] + rows[k + 1..]
  {
    var r := EditRow(rows, rows[k].run, c);
    var s := rows[..k] + [Recompute(Amend(rows[k], c))] + rows[k + 1..];
    forall i | 0 <= i < |rows| ensures r[i] == s[i] {
      if i < k {
        assert rows[i].run < rows[k].run;
      } else if i > k {
        assert rows[k].run < rows[i].run;
      }
    }
  }

  // ---------------------------------------------------------------------
  // Reset

  /** The Reset button's `[initialRow]`. */
  function ResetRows(loadTime: Date): (r: seq<Row>)
    ensures |r| == 1 && r[0].run == 0
    ensures WellFormed(r)
  {
    [InitialRow(loadTime)]
  }

  lemma ResetIsWellFormed(loadTime: Date)
    ensures |ResetRows(loadTime)| == 1
    ensures ResetRows(loadTime)[0].run == 0
    ensures ResetRows(loadTime)[0].earned == None && ResetRows(loadTime)[0].repairCost == None
    ensures ResetRows(loadTime)[0].profit == None
    ensures WellFormed(ResetRows(loadTime))
  {
  }

  // ---------------------------------------------------------------------
  // Total profit

  /** The `reduce` callback: a truthy profit is added, a null or zero one skipped. */
  function ProfitStep(total: int, row: Row): (r: int)
    ensures r == total + ProfitOrZero(row)
  {
    if Truthy(row.profit) then total + row.profit.value else total
  }

  /**
   * `rows.reduce(step, total)`, folding from the first row to the last: it
   * adds the sum of the profits, null and 0 adding nothing.
   */
  function ReduceProfit(rows: seq<Row>, total: int): (r: int)
    ensures r == total + SumOfProfits(rows)
    decreases |rows|
  {
    if rows == [] then total else ReduceProfit(rows[1..], ProfitStep(total, rows[0]))
  }

  /** `calculateTotalProfit`: the sum of the present profits, and 0 on an empty ledger. */
  function TotalProfit(rows: seq<Row>): (r: int)
    ensures r == SumOfProfits(rows)
    ensures rows == [] ==> r == 0
  {
    ReduceProfit(rows, 0)
  }

  /** Reference: the sum of all profits, null counting as 0. */
  function SumOfProfits(rows: seq<Row>): int
    decreases |rows|
  {
    if rows == [] then 0 else ProfitOrZero(rows[0]) + SumOfProfits(rows[1..])
  }

  lemma {:induction false} SumOfProfitsConcat(a: seq<Row>, b: seq<Row>)
    ensures SumOfProfits(a + b) == SumOfProfits(a) + SumOfProfits(b)
    decreases |a|
  {
    if a == [] {
      assert a + b == b;
    } else {
      assert (a + b)[1..] == a[1..] + b;
      SumOfProfitsConcat(a[1..], b);
    }
  }

  /** A new row has no profit, so adding it leaves the total as it was. */
  lemma {:induction false} TotalProfitAfterAdd(rows: seq<Row>, loadTime: Date)
    ensures TotalProfit(AddNewRow(rows, loadTime)) == TotalProfit(rows)
  {
    var r := AddNewRow(rows, loadTime);
    SumOfProfitsConcat(rows, [r[|rows|]]);
  }

  /** Removing the row at `k` takes exactly its profit off the total. */
  lemma {:induction false} TotalProfitAfterRemove(rows: seq<Row>, k: nat)
    requires StrictlyIncreasing(rows) && k < |rows|
    ensures TotalProfit(RemoveRow(rows, rows[k].run)) == TotalProfit(rows) - ProfitOrZero(rows[k])
  {
    RemoveRowAt(rows, k);
    SplitAt(rows, k);
    SumOfProfitsConcat(rows[..k], [rows[k]] + rows[k + 1..]);
    SumOfProfitsConcat([rows[k]], rows[k + 1..]);
    SumOfProfitsConcat(rows[..k], rows[k + 1..]);
  }

  /** Editing the row at `k` moves the total by exactly that row's change of profit. */
  lemma {:induction false} TotalProfitAfterEdit(rows: seq<Row>, k: nat, c: Change)
    requires StrictlyIncreasing(rows) && k < |rows|
    ensures TotalProfit(EditRow(rows, rows[k].run, c)) ==
              TotalProfit(rows) - ProfitOrZero(rows[k]) + ProfitOrZero(EditRow(rows, rows[k].run, c)[k])
  {
    var edited := Recompute(Amend(rows[k], c));
    EditRowAt(rows, k, c);
    var r := EditRow(rows, rows[k].run, c);
    assert r == rows[..k] + ([edited] + rows[k + 1..]);
    SplitAt(rows, k);
    SumOfProfitsConcat(rows[..k], [rows[k]] + rows[k + 1..]);
    SumOfProfitsConcat([rows[k]], rows[k + 1..]);
    SumOfProfitsConcat(rows[..k], [edited] + rows[k + 1..]);
    SumOfProfitsConcat([edited], rows[k + 1..]);
  }

  // ---------------------------------------------------------------------
  // Worked scenarios

  /** One run earning 100 with repair cost 40 makes a profit of 60, and a total of 60. */
  lemma ScenarioSingleRun(loadTime: Date)
    ensures var row := Recompute(Row(0, loadTime, Some(100), Some(40), None));
            row.profit == Some(60) && TotalProfit([row]) == 60
  {
    var row := Recompute(Row(0, loadTime, Some(100), Some(40), None));
    assert ReduceProfit([row], 0) == ReduceProfit([], ProfitStep(0, row));
  }

  /** A zero repair cost suppresses the profit: the row then adds nothing to the total. */
  lemma ScenarioZeroRepairCost(loadTime: Date)
    ensures var row := Recompute(Row(0, loadTime, Some(100), Some(0), None));
            row.profit == None && TotalProfit([row]) == 0
  {
    var row := Recompute(Row(0, loadTime, Some(100), Some(0), None));
    assert ReduceProfit([row], 0) == ReduceProfit([], ProfitStep(0, row));
  }

  /** From the initial single row, two appends give run ids 0, 1 and 2. */
  lemma ScenarioTwoAdds(loadTime: Date)
    ensures var rows := AddNewRow(AddNewRow(ResetRows(loadTime), loadTime), loadTime);
            |rows| == 3 && rows[0].run == 0 && rows[1].run == 1 && rows[2].run == 2
  {
  }
}
