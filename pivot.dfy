/** The Year x Reporter comparison table of the Export Analysis page
    (dashboard_exports.py line 110): `pivot_table(index='Year',
    columns='Reporter', values='Value', aggfunc='sum')`. */
module Pivot {
  import opened Tables
  import opened Trade

  /** The pivot: its row index, its columns and the cells that hold a value.
      A (Year, Reporter) pair outside `cells` is an empty (NaN) cell. */
  datatype PivotTable = PivotTable(years: set<int>, reporters: set<string>, cells: map<(int, string), real>)

  function YearReporter(r: Row): (int, string) {
    (r.year, r.reporter)
  }

  /** The cell at (year, reporter): a value, or none. */
  function Cell(p: PivotTable, year: int, reporter: string): Option<real> {
    if (year, reporter) in p.cells then Some(p.cells[(year, reporter)]) else None
  }

  /** The pivot of a table. */
  function PivotOf(t: seq<Row>): (p: PivotTable)
    // index and columns: exactly the Years and Reporters present
    ensures p.years == set r | r in t :: r.year
    ensures p.reporters == set r | r in t :: r.reporter
    // a cell holds a value exactly when some row has that Year and Reporter ...
    ensures forall r :: r in t ==> Cell(p, r.year, r.reporter) == Some(SumWhere(t, YearReporter, RowValue, (r.year, r.reporter)))
    ensures forall y, c :: Cell(p, y, c).Some? ==> exists r :: r in t && r.year == y && r.reporter == c
    // ... and then it is the sum of their Values
    ensures forall y, c :: Cell(p, y, c).Some? ==> Cell(p, y, c).value == SumWhere(t, YearReporter, RowValue, (y, c))
  {
    var ks := Keys(t, YearReporter);
    PivotTable(set r | r in t :: r.year, set r | r in t :: r.reporter,
               map k | k in ks :: SumWhere(t, YearReporter, RowValue, k))
  }

  /** The filled cells add up to the total Value of the table: the pivot
      neither drops nor double-counts a row. */
  lemma PivotAddsUp(t: seq<Row>)
    ensures SumCells(PivotOf(t), Keys(t, YearReporter)) == Sum(t, RowValue)
  {
    var ks := Keys(t, YearReporter);
    SumCellsIsSumOver(PivotOf(t), ks, t);
    GroupSumsAddUp(t, YearReporter, RowValue);
  }

  /** The sum of the listed cells, an empty cell counting nothing. */
  function SumCells(p: PivotTable, ks: seq<(int, string)>): real {
    if ks == [] then 0.0
    else
      var k := ks[|ks| - 1];
      SumCells(p, ks[..|ks| - 1]) + (if k in p.cells then p.cells[k] else 0.0)
  }

  lemma {:induction false} SumCellsIsSumOver(p: PivotTable, ks: seq<(int, string)>, t: seq<Row>)
    requires p == PivotOf(t) && forall k :: k in ks ==> k in Keys(t, YearReporter)
    ensures SumCells(p, ks) == SumOver(ks, t, YearReporter, RowValue)
  {
    if ks != [] {
      var init := ks[..|ks| - 1];
      assert forall k :: k in init ==> k in ks;
      SumCellsIsSumOver(p, init, t);
    }
  }
}
