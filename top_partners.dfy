/** The top-five trading partners computed live from the export table
    (dashboard_exports.py lines 14-16): the Value column summed per
    (Product, Reporter, Partner), sorted by Product and Reporter ascending and
    Value descending, and the first five rows of each (Product, Reporter) group. */
module TopPartners {
  import opened Tables
  import opened Sorting
  import opened Order
  import opened Trade

  /** One row of the grouped partner table: the summed Value of a triple. */
  datatype Total = Total(product: string, reporter: string, partner: string, value: real)

  /** Rows kept per (Product, Reporter) group: `head(5)`. */
  const TopN: nat := 5

  function PartnerKey(r: Row): (string, string, string) {
    (r.product, r.reporter, r.partner)
  }

  function TotalKey(x: Total): (string, string, string) {
    (x.product, x.reporter, x.partner)
  }

  function TotalValue(x: Total): real {
    x.value
  }

  /** The (Product, Reporter) group of a total. */
  function GroupOf(x: Total): (string, string) {
    (x.product, x.reporter)
  }

  function TripleGroup(k: (string, string, string)): (string, string) {
    (k.0, k.1)
  }

  function Min(a: nat, b: nat): nat {
    if a <= b then a else b
  }

  /** The distinct partners a (Product, Reporter) group has in the table. */
  ghost function PartnersOf(t: seq<Row>, g: (string, string)): set<string> {
    set r | r in t && (r.product, r.reporter) == g :: r.partner
  }

  /** One total for each listed triple, in the order listed. */
  function TotalsOf(ks: seq<(string, string, string)>, t: seq<Row>): (r: seq<Total>)
    ensures |r| == |ks|
    ensures forall i :: 0 <= i < |ks| ==> TotalKey(r[i]) == ks[i]
    ensures forall i :: 0 <= i < |ks| ==> r[i].value == SumWhere(t, PartnerKey, RowValue, ks[i])
  {
    if ks == [] then []
    else
      var k := ks[|ks| - 1];
      TotalsOf(ks[..|ks| - 1], t) + [Total(k.0, k.1, k.2, SumWhere(t, PartnerKey, RowValue, k))]
  }

  /** `groupby(['Product', 'Reporter', 'Partner'])['Value'].sum()`: one row
      per distinct triple, holding the sum of Value over every row with that
      triple, whatever its Measure and Year. */
  function Totals(t: seq<Row>): (r: seq<Total>)
    ensures forall x :: x in r ==> x.value == SumWhere(t, PartnerKey, RowValue, TotalKey(x))
    ensures forall x :: x in r ==> exists row :: row in t && PartnerKey(row) == TotalKey(x)
    ensures forall row :: row in t ==> exists x :: x in r && TotalKey(x) == PartnerKey(row)
    ensures forall i, j :: 0 <= i < j < |r| ==> TotalKey(r[i]) != TotalKey(r[j])
  {
    var ks := Keys(t, PartnerKey);
    var r := TotalsOf(ks, t);
    assert forall row :: row in t ==> PartnerKey(row) in ks;
    assert forall x :: x in r ==> TotalKey(x) in ks;
    r
  }

  /** The sum of the totals over a key list is the sum of those groups. */
  lemma {:induction false} TotalsOfSum(ks: seq<(string, string, string)>, t: seq<Row>)
    ensures Sum(TotalsOf(ks, t), TotalValue) == SumOver(ks, t, PartnerKey, RowValue)
  {
    if ks != [] {
      var r := TotalsOf(ks, t);
      assert r[..|r| - 1] == TotalsOf(ks[..|ks| - 1], t);
      TotalsOfSum(ks[..|ks| - 1], t);
    }
  }

  /** Grouping neither loses nor double-counts Value: the totals add up to
      the sum of the whole table. */
  lemma TotalsAddUp(t: seq<Row>)
    ensures Sum(Totals(t), TotalValue) == Sum(t, RowValue)
  {
    TotalsOfSum(Keys(t, PartnerKey), t);
    GroupSumsAddUp(t, PartnerKey, RowValue);
  }

  /** The sort order `sort_values(['Product', 'Reporter', 'Value'],
      ascending=[True, True, False])`: Product, then Reporter ascending, then
      Value descending. Sorting on several columns is stable in pandas, and
      its input comes from `groupby`, sorted by Partner within each group, so
      rows of equal Value in one group stay in Partner order. */
  predicate TotalBefore(x: Total, y: Total) {
    || StrLt(x.product, y.product)
    || (x.product == y.product && StrLt(x.reporter, y.reporter))
    || (x.product == y.product && x.reporter == y.reporter &&
        (x.value > y.value || (x.value == y.value && StrLe(x.partner, y.partner))))
  }

  /** The sort order is a total preorder. */
  lemma TotalBeforePreorder()
    ensures TotalPreorder(TotalBefore)
  {
    forall x: Total, y: Total
      ensures TotalBefore(x, y) || TotalBefore(y, x)
    {
      StrTrichotomy(x.product, y.product);
      StrTrichotomy(x.reporter, y.reporter);
      StrLeTotal(x.partner, y.partner);
    }
    forall x: Total, y: Total, z: Total | TotalBefore(x, y) && TotalBefore(y, z)
      ensures TotalBefore(x, z)
    {
      if StrLt(x.product, y.product) && StrLt(y.product, z.product) {
        StrLtTransitive(x.product, y.product, z.product);
      }
      if x.product == y.product == z.product && StrLt(x.reporter, y.reporter) && StrLt(y.reporter, z.reporter) {
        StrLtTransitive(x.reporter, y.reporter, z.reporter);
      }
      if x.product == y.product == z.product && x.reporter == y.reporter == z.reporter
        && x.value == y.value == z.value && StrLe(x.partner, y.partner) && StrLe(y.partner, z.partner) {
        StrLeTransitive(x.partner, y.partner, z.partner);
      }
    }
  }

  /** `groupby(['Product', 'Reporter']).head(n)`: a row is kept when fewer
      than `n` earlier rows belong to its group. */
  function HeadPerGroup(s: seq<Total>, n: nat): (r: seq<Total>)
    ensures forall x :: x in r ==> x in s
    ensures multiset(r) <= multiset(s)
  {
    if s == [] then []
    else
      var init := s[..|s| - 1];
      var last := s[|s| - 1];
      assert forall x :: x in init ==> x in s;
      assert multiset(s) == multiset(init) + multiset{last} by {
        assert s == init + [last];
      }
      HeadPerGroup(init, n) + (if CountWhere(init, GroupOf, GroupOf(last)) < n then [last] else [])
  }

  /** Each group keeps `min(n, its size)` rows. */
  lemma {:induction false} HeadGroupSize(s: seq<Total>, n: nat, g: (string, string))
    ensures CountWhere(HeadPerGroup(s, n), GroupOf, g) == Min(n, CountWhere(s, GroupOf, g))
  {
    if s != [] {
      var init := s[..|s| - 1];
      var last := s[|s| - 1];
      var h := HeadPerGroup(init, n);
      HeadGroupSize(init, n, g);
      if CountWhere(init, GroupOf, GroupOf(last)) < n {
        assert (h + [last])[..|h|] == h;
      } else {
        assert HeadPerGroup(s, n) == h;
      }
    }
  }

  /** A row with fewer than `n` earlier rows of its group is kept. */
  lemma {:induction false} HeadKeeps(s: seq<Total>, n: nat, i: nat)
    requires i < |s| && CountWhere(s[..i], GroupOf, GroupOf(s[i])) < n
    ensures s[i] in HeadPerGroup(s, n)
  {
    var init := s[..|s| - 1];
    if i < |s| - 1 {
      assert init[..i] == s[..i] && init[i] == s[i];
      HeadKeeps(init, n, i);
    }
  }

  /** Every kept row sits at a position with fewer than `n` earlier rows of its group. */
  lemma {:induction false} HeadKeptEarly(s: seq<Total>, n: nat, x: Total)
    requires x in HeadPerGroup(s, n)
    ensures exists i :: 0 <= i < |s| && s[i] == x && CountWhere(s[..i], GroupOf, GroupOf(x)) < n
  {
    var init := s[..|s| - 1];
    var last := s[|s| - 1];
    var kept := CountWhere(init, GroupOf, GroupOf(last)) < n;
    assert HeadPerGroup(s, n) == HeadPerGroup(init, n) + (if kept then [last] else []);
    if x in HeadPerGroup(init, n) {
      HeadKeptEarly(init, n, x);
      var i :| 0 <= i < |init| && init[i] == x && CountWhere(init[..i], GroupOf, GroupOf(x)) < n;
      assert init[..i] == s[..i] && s[i] == x;
    } else {
      assert kept && x == last;
      assert s[..|s| - 1] == init;
    }
  }

  /** Keeping the first rows of each group keeps an ordered table ordered. */
  lemma {:induction false} HeadSorted(s: seq<Total>, n: nat)
    requires SortedBy(s, TotalBefore)
    ensures SortedBy(HeadPerGroup(s, n), TotalBefore)
  {
    if s != [] {
      var init := s[..|s| - 1];
      var last := s[|s| - 1];
      var h := HeadPerGroup(init, n);
      HeadSorted(init, n);
      var r := HeadPerGroup(s, n);
      forall i, j | 0 <= i < j < |r|
        ensures TotalBefore(r[i], r[j])
      {
        if j < |h| {
          assert r[i] == h[i] && r[j] == h[j];
        } else {
          assert r[i] == h[i] && r[j] == last;
          assert h[i] in init;
          var k :| 0 <= k < |init| && init[k] == h[i];
          assert s[k] == h[i];
        }
      }
    }
  }

  /** In an ordered table, no kept row of a group has a smaller Value than a
      dropped row of the same group, and on equal Value its Partner is no later. */
  lemma KeptNotSmaller(s: seq<Total>, n: nat, x: Total, y: Total)
    requires SortedBy(s, TotalBefore)
    requires x in HeadPerGroup(s, n) && y in s && y !in HeadPerGroup(s, n)
    requires GroupOf(x) == GroupOf(y)
    ensures x.value >= y.value
    ensures x.value == y.value ==> StrLe(x.partner, y.partner)
  {
    var g := GroupOf(x);
    HeadKeptEarly(s, n, x);
    var i :| 0 <= i < |s| && s[i] == x && CountWhere(s[..i], GroupOf, g) < n;
    var j :| 0 <= j < |s| && s[j] == y;
    if CountWhere(s[..j], GroupOf, g) < n {
      HeadKeeps(s, n, j);
      assert false;
    }
    if j < i {
      CountPrefix(s, GroupOf, g, j, j + 1);
      CountPrefix(s, GroupOf, g, j + 1, i);
      assert false;
    }
    assert i < j;
    assert TotalBefore(s[i], s[j]);
    assert !StrLt(x.product, x.product) && !StrLt(x.reporter, x.reporter);
  }

  /** The partners of group `g` among a list of triples. */
  ghost function PartnerSet(ks: seq<(string, string, string)>, g: (string, string)): set<string> {
    set k | k in ks && TripleGroup(k) == g :: k.2
  }

  /** Appending a triple adds its partner to its own group only. */
  lemma PartnerSetSnoc(ks: seq<(string, string, string)>, k: (string, string, string), g: (string, string))
    ensures PartnerSet(ks + [k], g) == PartnerSet(ks, g) + (if TripleGroup(k) == g then {k.2} else {})
  {
    assert forall y :: y in ks + [k] <==> y in ks || y == k;
  }

  /** The totals have one row per distinct partner of each group. */
  lemma {:induction false} GroupCountIsPartners(ks: seq<(string, string, string)>, g: (string, string))
    requires Distinct(ks)
    ensures CountWhere(ks, TripleGroup, g) == |PartnerSet(ks, g)|
  {
    if ks != [] {
      var init := ks[..|ks| - 1];
      var last := ks[|ks| - 1];
      assert ks == init + [last];
      assert Distinct(init);
      GroupCountIsPartners(init, g);
      PartnerSetSnoc(init, last, g);
    }
  }

  /** Counting groups over the totals is counting them over the key list. */
  lemma {:induction false} TotalsOfGroupCount(ks: seq<(string, string, string)>, t: seq<Row>, g: (string, string))
    ensures CountWhere(TotalsOf(ks, t), GroupOf, g) == CountWhere(ks, TripleGroup, g)
  {
    if ks != [] {
      var r := TotalsOf(ks, t);
      assert r[..|r| - 1] == TotalsOf(ks[..|ks| - 1], t);
      TotalsOfGroupCount(ks[..|ks| - 1], t, g);
    }
  }

  /** A (Product, Reporter) group has as many totals as it has distinct partners. */
  lemma TotalsGroupSize(t: seq<Row>, g: (string, string))
    ensures CountWhere(Totals(t), GroupOf, g) == |PartnersOf(t, g)|
  {
    var ks := Keys(t, PartnerKey);
    TotalsOfGroupCount(ks, t, g);
    GroupCountIsPartners(ks, g);
    var fromKeys := PartnerSet(ks, g);
    forall p | p in PartnersOf(t, g)
      ensures p in fromKeys
    {
      var r :| r in t && (r.product, r.reporter) == g && r.partner == p;
      assert PartnerKey(r) in ks;
    }
    forall p | p in fromKeys
      ensures p in PartnersOf(t, g)
    {
      var k :| k in ks && TripleGroup(k) == g && k.2 == p;
      var r :| r in t && PartnerKey(r) == k;
    }
    assert fromKeys == PartnersOf(t, g);
  }

  /** The live top-partners table of lines 14-16. */
  function TopPartners(t: seq<Row>): (r: seq<Total>)
    // ordered by Product, Reporter ascending and Value descending
    ensures SortedBy(r, TotalBefore)
    // every row is the summed total of its triple, and no triple comes twice
    ensures forall x :: x in r ==> x in Totals(t)
    ensures forall i, j :: 0 <= i < j < |r| ==> TotalKey(r[i]) != TotalKey(r[j])
    // each group keeps min(5, number of its distinct partners) rows
    ensures forall g :: CountWhere(r, GroupOf, g) == Min(TopN, |PartnersOf(t, g)|)
    // no kept partner of a group has a smaller total than a dropped one;
    // on a tie, the kept partner sorts before the dropped one
    ensures forall x, y :: x in r && y in Totals(t) && y !in r && GroupOf(x) == GroupOf(y) ==>
      x.value >= y.value && (x.value == y.value ==> StrLt(x.partner, y.partner))
  {
    TopPartnersFacts(t);
    HeadPerGroup(Sort(Totals(t), TotalBefore), TopN)
  }

  /** The facts behind `TopPartners`. */
  lemma TopPartnersFacts(t: seq<Row>)
    ensures var h := HeadPerGroup(Sort(Totals(t), TotalBefore), TopN);
      && SortedBy(h, TotalBefore)
      && (forall x :: x in h ==> x in Totals(t))
      && (forall i, j :: 0 <= i < j < |h| ==> TotalKey(h[i]) != TotalKey(h[j]))
      && (forall g :: CountWhere(h, GroupOf, g) == Min(TopN, |PartnersOf(t, g)|))
      && (forall x, y :: x in h && y in Totals(t) && y !in h && GroupOf(x) == GroupOf(y) ==>
            x.value >= y.value && (x.value == y.value ==> StrLt(x.partner, y.partner)))
  {
    var totals := Totals(t);
    var s := Sort(totals, TotalBefore);
    var h := HeadPerGroup(s, TopN);
    TotalBeforePreorder();
    SortSorted(totals, TotalBefore);
    HeadSorted(s, TopN);
    forall x | x in h
      ensures x in totals
    {
      assert x in multiset(s);
    }
    TopDistinctKeys(t);
    forall g
      ensures CountWhere(h, GroupOf, g) == Min(TopN, |PartnersOf(t, g)|)
    {
      HeadGroupSize(s, TopN, g);
      CountPermutation(s, totals, GroupOf, g);
      TotalsGroupSize(t, g);
    }
    forall x, y | x in h && y in totals && y !in h && GroupOf(x) == GroupOf(y)
      ensures x.value >= y.value && (x.value == y.value ==> StrLt(x.partner, y.partner))
    {
      assert y in multiset(s);
      KeptNotSmaller(s, TopN, x, y);
      TotalsKeyed(t);
    }
  }

  /** No triple is kept twice: the totals are distinct and `head` keeps
      each row at most as often as the sorted totals hold it. */
  lemma TopDistinctKeys(t: seq<Row>)
    ensures var h := HeadPerGroup(Sort(Totals(t), TotalBefore), TopN);
      forall i, j :: 0 <= i < j < |h| ==> TotalKey(h[i]) != TotalKey(h[j])
  {
    var totals := Totals(t);
    var s := Sort(totals, TotalBefore);
    var h := HeadPerGroup(s, TopN);
    TotalsKeyed(t);
    DistinctPermutation(totals, s);
    DistinctAtMostOnce(s);
    forall x | true
      ensures multiset(h)[x] <= 1
    {
      assert multiset(h)[x] <= multiset(s)[x];
    }
    AtMostOnceDistinct(h);
    forall i, j | 0 <= i < j < |h|
      ensures TotalKey(h[i]) != TotalKey(h[j])
    {
      assert h[i] in multiset(s) && h[j] in multiset(s);
    }
  }

  /** The totals are distinct rows whose triple determines them. */
  lemma TotalsKeyed(t: seq<Row>)
    ensures Distinct(Totals(t))
    ensures forall x, y :: x in Totals(t) && y in Totals(t) && TotalKey(x) == TotalKey(y) ==> x == y
  {
    var r := Totals(t);
    forall x, y | x in r && y in r && TotalKey(x) == TotalKey(y)
      ensures x == y
    {
      var i :| 0 <= i < |r| && r[i] == x;
      var j :| 0 <= j < |r| && r[j] == y;
      assert i == j;
    }
  }
}
