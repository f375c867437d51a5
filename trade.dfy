/** The base export table and the Export Analysis filter. */
module Trade {
  import opened Tables

  /** One row of the export table: a reporter's exports of a product to a
      partner in a year, either a quantity or a value according to `measure`. */
  datatype Row = Row(reporter: string, partner: string, product: string, measure: string, year: int, value: real)

  /** The two measure labels the dashboard selects on. */
  const QuantityMeasure: string := "Export quantity"
  const ValueMeasure: string := "Export value"

  /** The Export Analysis selections: one product, the chosen reporter
      countries (a multiselect list, possibly empty) and an inclusive year range. */
  datatype FilterState = FilterState(product: string, countries: seq<string>, fromYear: int, toYear: int)

  /** The filter's row test: product equal, reporter among the chosen
      countries, year in the range with both ends included. */
  predicate Matches(r: Row, st: FilterState) {
    r.product == st.product && r.reporter in st.countries && st.fromYear <= r.year <= st.toYear
  }

  function RowValue(r: Row): real {
    r.value
  }

  /** The filtered table the Export Analysis page works on. */
  function ApplyFilter(t: seq<Row>, st: FilterState): (r: seq<Row>)
    ensures forall x :: x in r <==> x in t && x.product == st.product && x.reporter in st.countries && st.fromYear <= x.year <= st.toYear
    ensures forall x :: multiset(r)[x] == if Matches(x, st) then multiset(t)[x] else 0
    ensures IsSubsequence(r, t)
  {
    Where(t, (x: Row) => Matches(x, st))
  }

  /** Deselecting every country gives the empty table, not an error. */
  lemma NoCountriesNoRows(t: seq<Row>, st: FilterState)
    requires st.countries == []
    ensures ApplyFilter(t, st) == []
  {
  }

  /** The rows of one measure (the quantity and value series). */
  function MeasureRows(t: seq<Row>, measure: string): (r: seq<Row>)
    ensures forall x :: x in r <==> x in t && x.measure == measure
    ensures forall x :: multiset(r)[x] == if x.measure == measure then multiset(t)[x] else 0
    ensures IsSubsequence(r, t)
  {
    Where(t, OfMeasure(measure))
  }

  /** The row test `df['Measure'] == measure`. */
  function OfMeasure(measure: string): Row -> bool {
    (x: Row) => x.measure == measure
  }
}
