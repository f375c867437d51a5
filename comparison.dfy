/** The Comparison Table page's country filter (dashboard_exports.py lines
    166-170). */
module Comparison {
  import opened Tables

  /** A row of the comparison table: its Country and its other cells, whose
      columns the page never inspects. */
  datatype CountryRow = CountryRow(country: string, cells: seq<string>)

  /** What the page shows: the filtered table, or the warning. */
  datatype ComparisonView = Shown(rows: seq<CountryRow>) | Warning(message: string)

  const SelectAtLeastOne: string := "Please select at least one country."

  /** `if country_filter:` a non-empty selection shows the rows whose Country
      is selected, in table order; an empty one shows only the warning. */
  function CompareCountries(table: seq<CountryRow>, selection: seq<string>): (v: ComparisonView)
    ensures v.Warning? <==> selection == []
    ensures v.Warning? ==> v.message == SelectAtLeastOne
    ensures v.Shown? ==> forall x :: x in v.rows <==> x in table && x.country in selection
    ensures v.Shown? ==> forall x :: multiset(v.rows)[x] == if x.country in selection then multiset(table)[x] else 0
    ensures v.Shown? ==> IsSubsequence(v.rows, table)
  {
    if selection != [] then Shown(Where(table, (x: CountryRow) => x.country in selection))
    else Warning(SelectAtLeastOne)
  }
}
