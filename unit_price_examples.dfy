/** Worked instances of the unit-price pipeline: a matching quantity and
    value row give their ratio as the year's mean; a ratio above the ceiling
    and a zero quantity leave the series empty. */
module UnitPriceExamples {
  import opened Tables
  import opened Trade
  import opened UnitPrice

  const Q := Row("India", "X", "Wheat", QuantityMeasure, 2020, 100.0)
  const V := Row("India", "X", "Wheat", ValueMeasure, 2020, 500.0)

  /** 100 units worth 500: unit price 5. */
  lemma ExampleSplit()
    ensures MeasureRows([Q, V], QuantityMeasure) == [Q]
    ensures MeasureRows([Q, V], ValueMeasure) == [V]
  {
    assert QuantityMeasure[7] != ValueMeasure[7];
    assert [Q, V][1..] == [V] && [V][1..] == [];
    assert Where([V], OfMeasure(ValueMeasure)) == [V];
    assert Where([V], OfMeasure(QuantityMeasure)) == [];
  }

  lemma ExampleJoin()
    ensures Join([Q], [V]) == [Joined(Q, V)]
  {
    assert JoinOne(Q, [V]) == [Joined(Q, V)];
  }

  lemma ExampleSurvivors()
    ensures Survivors([Joined(Q, V)]) == [Priced(Joined(Q, V), 5.0)]
  {
  }

  lemma ExampleMean()
    ensures AveragePrices([Priced(Joined(Q, V), 5.0)]) == [AvgPrice(2020, "India", 5.0)]
  {
    var p := Priced(Joined(Q, V), 5.0);
    assert Keys([p], PriceKey) == [(2020, "India")];
    assert SortedKeys([p]) == [(2020, "India")];
    assert [p][..0] == [];
    assert CountWhere([p], PriceKey, (2020, "India")) == 1;
    assert SumWhere([p], PriceKey, PriceOf, (2020, "India")) == 5.0;
    assert MeanWhere([p], PriceKey, PriceOf, (2020, "India")) == 5.0;
  }

  lemma Example()
    ensures AveragePriceTable([Q, V]) == [AvgPrice(2020, "India", 5.0)]
  {
    ExampleSplit();
    ExampleJoin();
    ExampleSurvivors();
    ExampleMean();
  }

  /** A pair whose ratio is 20000 is dropped, leaving nothing to average. */
  lemma OutlierDropped(q: Row, v: Row)
    requires q == Row("India", "X", "Wheat", QuantityMeasure, 2020, 1.0)
    requires v == Row("India", "X", "Wheat", ValueMeasure, 2020, 20000.0)
    ensures Survivors(Join([q], [v])) == []
    ensures AveragePrices(Survivors(Join([q], [v]))) == []
  {
    assert JoinOne(q, [v]) == [Joined(q, v)];
    assert Join([q], [v]) == [Joined(q, v)];
  }

  /** A zero quantity gives no price, whatever the value. */
  lemma ZeroQuantityDropped(q: Row, v: Row)
    requires q.value == 0.0
    ensures Survivors([Joined(q, v)]) == []
  {
  }
}
