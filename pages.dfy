/** The sidebar navigation and what each page computes
    (dashboard_exports.py lines 25-31, 34, 49, 121, 160, 188). */
module Pages {
  import opened Tables
  import opened Trade
  import opened TopPartners
  import opened UnitPrice
  import opened Pivot
  import opened Comparison

  datatype Page = Home | ExportAnalysis | TopTradingPartners | ComparisonTable | Summary

  /** The radio button's option labels. */
  function Label(p: Page): string {
    match p
    case Home => "\U{1F3E0} Home"
    case ExportAnalysis => "\U{1F4E6} Export Analysis"
    case TopTradingPartners => "\U{1F30D} Top Trading Partners"
    case ComparisonTable => "\U{1F4CA} Comparison Table"
    case Summary => "\U{1F4CC} Summary"
  }

  /** The options in the order the sidebar lists them. */
  const NavigationOptions: seq<string> :=
    [Label(Home), Label(ExportAnalysis), Label(TopTradingPartners), Label(ComparisonTable), Label(Summary)]

  /** The first `if` chain: Home, else Export Analysis. */
  function FirstChain(nav: string): Option<Page> {
    if nav == Label(Home) then Some(Home)
    else if nav == Label(ExportAnalysis) then Some(ExportAnalysis)
    else None
  }

  /** The second `if` chain, which starts afresh at line 121: Top Trading
      Partners, else Comparison Table, else Summary. */
  function SecondChain(nav: string): Option<Page> {
    if nav == Label(TopTradingPartners) then Some(TopTradingPartners)
    else if nav == Label(ComparisonTable) then Some(ComparisonTable)
    else if nav == Label(Summary) then Some(Summary)
    else None
  }

  function Bodies(o: Option<Page>): seq<Page> {
    if o.Some? then [o.value] else []
  }

  /** The page bodies one script run executes, in order. */
  function PagesRun(nav: string): seq<Page> {
    Bodies(FirstChain(nav)) + Bodies(SecondChain(nav))
  }

  /** Although the page tests form two separate chains, selecting any
      option runs exactly that page's body and no other. */
  lemma SelectedPageRunsAlone(p: Page)
    ensures PagesRun(Label(p)) == [p]
  {
  }

  /** The five labels are distinct, so the selection names one page. */
  lemma LabelsDistinct(p: Page, q: Page)
    ensures Label(p) == Label(q) <==> p == q
  {
  }

  /** A value that is not one of the options runs no page body. */
  lemma UnknownSelectionRunsNothing(nav: string)
    requires nav !in NavigationOptions
    ensures PagesRun(nav) == []
  {
  }

  /** The read-only tables loaded at start-up: the export table, the
      precomputed top-partners file and the comparison table. */
  datatype Context = Context(exports: seq<Row>, topPartnersFile: seq<Total>, comparison: seq<CountryRow>)

  /** The two reporters the Top Trading Partners charts show. */
  const ChartedReporters: seq<string> := ["India", "T\U{FC}rkiye"]

  /** Line 130: the loaded top-partners rows of India and Türkiye, in file order. */
  function ChartedPartners(file: seq<Total>): (r: seq<Total>)
    ensures forall x :: x in r <==> x in file && x.reporter in ChartedReporters
    ensures forall x :: multiset(r)[x] == if x.reporter in ChartedReporters then multiset(file)[x] else 0
    ensures IsSubsequence(r, file)
  {
    Where(file, (x: Total) => x.reporter in ChartedReporters)
  }

  /** The widget values of one interaction. */
  datatype Inputs = Inputs(filter: FilterState, comparisonCountries: seq<string>)

  /** What a page body computes from the tables. */
  datatype View =
    | HomeView
    | ExportAnalysisView(filtered: seq<Row>, quantity: seq<Row>, value: seq<Row>, prices: seq<AvgPrice>, pivot: PivotTable)
    | TopTradingPartnersView(charted: seq<Total>)
    | ComparisonTableView(comparison: ComparisonView)
    | SummaryView

  /** The tables a page body derives. */
  function Render(ctx: Context, p: Page, inputs: Inputs): View {
    match p
    case Home => HomeView
    case ExportAnalysis =>
      var filtered := ApplyFilter(ctx.exports, inputs.filter);
      ExportAnalysisView(filtered, MeasureRows(filtered, QuantityMeasure), MeasureRows(filtered, ValueMeasure),
                         AveragePriceTable(filtered), PivotOf(filtered))
    case TopTradingPartners => TopTradingPartnersView(ChartedPartners(ctx.topPartnersFile))
    case ComparisonTable => ComparisonTableView(CompareCountries(ctx.comparison, inputs.comparisonCountries))
    case Summary => SummaryView
  }

  /** The Export Analysis charts plot only selected rows of their measure,
      and deselecting every country leaves every table empty without error. */
  lemma ExportAnalysisConsistent(ctx: Context, inputs: Inputs)
    ensures var v := Render(ctx, ExportAnalysis, inputs);
      && (forall x :: x in v.quantity ==> x in ctx.exports && Matches(x, inputs.filter) && x.measure == QuantityMeasure)
      && (forall x :: x in v.value ==> x in ctx.exports && Matches(x, inputs.filter) && x.measure == ValueMeasure)
      && (inputs.filter.countries == [] ==> v.filtered == [] && v.prices == [] && v.pivot.cells == map[])
  {
    var v := Render(ctx, ExportAnalysis, inputs);
    if inputs.filter.countries == [] {
      NoCountriesNoRows(ctx.exports, inputs.filter);
      assert v.filtered == [];
      assert MeasureRows(v.filtered, QuantityMeasure) == [];
    }
  }
}
