/** The live unit-price series of the Export Analysis page
    (dashboard_exports.py lines 85-99): the quantity and value rows of the
    filtered table joined on (Reporter, Partner, Product, Year), the ratio
    value / quantity per joined row, the ratios strictly between 0 and 10000
    kept, and their mean per (Year, Reporter). */
module UnitPrice {
  import opened Tables
  import opened Sorting
  import opened Order
  import opened Trade

  /** A joined row: the quantity row and the value row it was paired with
      (pandas keeps both rows' columns, suffixed `_qty` and `_val`). */
  datatype Joined = Joined(qty: Row, val: Row)

  /** The merge keys agree: Reporter, Partner, Product and Year. */
  predicate SameJoinKey(a: Row, b: Row) {
    a.reporter == b.reporter && a.partner == b.partner && a.product == b.product && a.year == b.year
  }

  /** The pairings of one quantity row with the value rows. */
  function JoinOne(a: Row, v: seq<Row>): (r: seq<Joined>)
    ensures forall x :: x in r ==> x.qty == a && x.val in v && SameJoinKey(a, x.val)
  {
    if v == [] then []
    else
      var b := v[|v| - 1];
      assert forall y :: y in v[..|v| - 1] ==> y in v;
      JoinOne(a, v[..|v| - 1]) + (if SameJoinKey(a, b) then [Joined(a, b)] else [])
  }

  /** `pd.merge(quantity_df, value_df, on=group_cols)`: the inner join. */
  function Join(q: seq<Row>, v: seq<Row>): (r: seq<Joined>)
    ensures forall x :: x in r ==> x.qty in q && x.val in v && SameJoinKey(x.qty, x.val)
    ensures q == [] || v == [] ==> r == []
  {
    if q == [] then []
    else
      assert forall y :: y in q[..|q| - 1] ==> y in q;
      Join(q[..|q| - 1], v) + JoinOne(q[|q| - 1], v)
  }

  /** How often a pairing of one quantity row occurs. */
  lemma {:induction false} JoinOneCount(a: Row, v: seq<Row>, x: Joined)
    ensures multiset(JoinOne(a, v))[x] == if x.qty == a && SameJoinKey(x.qty, x.val) then multiset(v)[x.val] else 0
  {
    if v != [] {
      var vinit := v[..|v| - 1];
      assert v == vinit + [v[|v| - 1]];
      JoinOneCount(a, vinit, x);
    }
  }

  /** The inner join pairs every quantity row with every value row of the
      same key exactly once, and pairs nothing else: a pairing occurs as
      often as its quantity row times as often as its value row. */
  lemma {:induction false} JoinCount(q: seq<Row>, v: seq<Row>, a: Row, b: Row)
    ensures multiset(Join(q, v))[Joined(a, b)] == if SameJoinKey(a, b) then multiset(q)[a] * multiset(v)[b] else 0
  {
    if q != [] {
      var qinit := q[..|q| - 1];
      var last := q[|q| - 1];
      assert q == qinit + [last];
      JoinCount(qinit, v, a, b);
      JoinOneCount(last, v, Joined(a, b));
      var x := Joined(a, b);
      assert Join(q, v) == Join(qinit, v) + JoinOne(last, v);
      assert multiset(Join(q, v))[x] == multiset(Join(qinit, v))[x] + multiset(JoinOne(last, v))[x];
      var m := multiset(qinit)[a];
      var n := multiset(v)[b];
      assert multiset(q)[a] == m + (if last == a then 1 else 0);
      if SameJoinKey(a, b) && last == a {
        MulSucc(m, n);
      }
    }
  }

  lemma MulSucc(m: nat, n: nat)
    ensures (m + 1) * n == m * n + n
  {
  }

  /** The sanity bound on unit prices. */
  const PriceCeiling: real := 10000.0

  /** `Value_val / Value_qty`. A zero quantity has no exact quotient; pandas
      gives inf or NaN there, which fails both bounds, so it is "no price". */
  function Ratio(j: Joined): Option<real> {
    if j.qty.value == 0.0 then None else Some(j.val.value / j.qty.value)
  }

  /** A joined row with its unit price `USD_per_ton`. */
  datatype Priced = Priced(row: Joined, price: real)

  /** The row passes `(USD_per_ton > 0) & (USD_per_ton < 10000)`. */
  predicate InBounds(j: Joined) {
    Ratio(j).Some? && 0.0 < Ratio(j).value < PriceCeiling
  }

  /** The joined rows whose unit price lies strictly between 0 and the
      ceiling, each with that price, in order. */
  function Survivors(js: seq<Joined>): (r: seq<Priced>)
    ensures forall p :: p in r ==> p.row in js && p.row.qty.value != 0.0
    ensures forall p :: p in r ==> p.price == p.row.val.value / p.row.qty.value && 0.0 < p.price < PriceCeiling
    ensures forall j, price :: multiset(r)[Priced(j, price)] == if InBounds(j) && price == Ratio(j).value then multiset(js)[j] else 0
  {
    if js == [] then []
    else
      var j := js[0];
      var rest := Survivors(js[1..]);
      assert js == [j] + js[1..];
      if InBounds(j) then [Priced(j, Ratio(j).value)] + rest else rest
  }

  /** One row of `avg_price_dynamic`. */
  datatype AvgPrice = AvgPrice(year: int, reporter: string, mean: real)

  /** The group of a priced row: `groupby(['Year', 'Reporter'])`. (The
      quantity and value rows agree on both.) */
  function PriceKey(p: Priced): (int, string) {
    (p.row.qty.year, p.row.qty.reporter)
  }

  function PriceOf(p: Priced): real {
    p.price
  }

  function AvgKey(a: AvgPrice): (int, string) {
    (a.year, a.reporter)
  }

  /** The order groupby gives its keys: Year, then Reporter, ascending. */
  predicate KeyLe(a: (int, string), b: (int, string)) {
    a.0 < b.0 || (a.0 == b.0 && StrLe(a.1, b.1))
  }

  lemma KeyLePreorder()
    ensures TotalPreorder(KeyLe)
  {
    forall a: (int, string), b: (int, string)
      ensures KeyLe(a, b) || KeyLe(b, a)
    {
      StrLeTotal(a.1, b.1);
    }
    forall a: (int, string), b: (int, string), c: (int, string) | KeyLe(a, b) && KeyLe(b, c)
      ensures KeyLe(a, c)
    {
      if a.0 == b.0 == c.0 {
        StrLeTransitive(a.1, b.1, c.1);
      }
    }
  }

  /** The mean price of each listed group, in the order listed. */
  function MeansOf(ks: seq<(int, string)>, ps: seq<Priced>): (r: seq<AvgPrice>)
    ensures |r| == |ks|
    ensures forall i :: 0 <= i < |ks| ==> AvgKey(r[i]) == ks[i]
    ensures forall i :: 0 <= i < |ks| ==> r[i].mean == MeanWhere(ps, PriceKey, PriceOf, ks[i])
  {
    if ks == [] then []
    else
      var k := ks[|ks| - 1];
      MeansOf(ks[..|ks| - 1], ps) + [AvgPrice(k.0, k.1, MeanWhere(ps, PriceKey, PriceOf, k))]
  }

  /** `groupby(['Year', 'Reporter'])['USD_per_ton'].mean().reset_index()`. */
  function AveragePrices(ps: seq<Priced>): (r: seq<AvgPrice>)
    // strictly ascending by (Year, Reporter): one row per group
    ensures forall i, j :: 0 <= i < j < |r| ==> KeyLe(AvgKey(r[i]), AvgKey(r[j])) && AvgKey(r[i]) != AvgKey(r[j])
    // a row only for a group with prices, holding the group's mean
    ensures forall a :: a in r ==> CountWhere(ps, PriceKey, AvgKey(a)) > 0 && a.mean == MeanWhere(ps, PriceKey, PriceOf, AvgKey(a))
    // the mean lies between the group's smallest and largest price
    ensures forall a :: a in r ==> exists p :: p in ps && PriceKey(p) == AvgKey(a) && p.price <= a.mean
    ensures forall a :: a in r ==> exists p :: p in ps && PriceKey(p) == AvgKey(a) && a.mean <= p.price
    // every group with a price has its row
    ensures forall p :: p in ps ==> exists a :: a in r && AvgKey(a) == PriceKey(p)
  {
    AveragePricesFacts(ps);
    MeansOf(SortedKeys(ps), ps)
  }

  /** The group keys, sorted as groupby sorts them. */
  function SortedKeys(ps: seq<Priced>): (ks: seq<(int, string)>)
    ensures Distinct(ks) && SortedBy(ks, KeyLe)
    ensures forall k :: k in ks <==> exists p :: p in ps && PriceKey(p) == k
  {
    var keys := Keys(ps, PriceKey);
    KeyLePreorder();
    SortSorted(keys, KeyLe);
    DistinctPermutation(keys, Sort(keys, KeyLe));
    Sort(keys, KeyLe)
  }

  lemma AveragePricesFacts(ps: seq<Priced>)
    ensures var r := MeansOf(SortedKeys(ps), ps);
      && (forall i, j :: 0 <= i < j < |r| ==> KeyLe(AvgKey(r[i]), AvgKey(r[j])) && AvgKey(r[i]) != AvgKey(r[j]))
      && (forall a :: a in r ==> CountWhere(ps, PriceKey, AvgKey(a)) > 0 && a.mean == MeanWhere(ps, PriceKey, PriceOf, AvgKey(a)))
      && (forall a :: a in r ==> exists p :: p in ps && PriceKey(p) == AvgKey(a) && p.price <= a.mean)
      && (forall a :: a in r ==> exists p :: p in ps && PriceKey(p) == AvgKey(a) && a.mean <= p.price)
      && (forall p :: p in ps ==> exists a :: a in r && AvgKey(a) == PriceKey(p))
  {
    var ks := SortedKeys(ps);
    var r := MeansOf(ks, ps);
    forall a | a in r
      ensures CountWhere(ps, PriceKey, AvgKey(a)) > 0 && a.mean == MeanWhere(ps, PriceKey, PriceOf, AvgKey(a))
      ensures exists p :: p in ps && PriceKey(p) == AvgKey(a) && p.price <= a.mean
      ensures exists p :: p in ps && PriceKey(p) == AvgKey(a) && a.mean <= p.price
    {
      var i :| 0 <= i < |r| && r[i] == a;
      assert ks[i] in ks;
      var x :| x in ps && PriceKey(x) == ks[i];
      PresentGroup(ps, PriceKey, x);
      MeanBetweenExtremes(ps, PriceKey, PriceOf, ks[i]);
    }
    forall p | p in ps
      ensures exists a :: a in r && AvgKey(a) == PriceKey(p)
    {
      assert PriceKey(p) in ks;
      var i :| 0 <= i < |ks| && ks[i] == PriceKey(p);
      assert r[i] in r;
    }
  }

  /** `avg_price_dynamic` computed from the filtered table. */
  function AveragePriceTable(filtered: seq<Row>): (r: seq<AvgPrice>)
    // every mean is itself a sane unit price
    ensures forall a :: a in r ==> 0.0 < a.mean < PriceCeiling
    // no quantity rows or no value rows: an empty series, not an error
    ensures MeasureRows(filtered, QuantityMeasure) == [] || MeasureRows(filtered, ValueMeasure) == [] ==> r == []
  {
    var q := MeasureRows(filtered, QuantityMeasure);
    var v := MeasureRows(filtered, ValueMeasure);
    AveragePrices(Survivors(Join(q, v)))
  }
}
