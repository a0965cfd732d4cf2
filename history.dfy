/** The back end's /historical_data: one (year, value) point per total
    value of the Kolada response. */
module HistoricalData {
  import opened Wrappers

  /** A value of a Kolada data item; gender "T" is the total. */
  datatype KoladaValue = KoladaValue(gender: string, value: Option<real>)

  /** One Kolada data item: a period (year) and its stratified values. */
  datatype KoladaItem = KoladaItem(period: int, values: seq<KoladaValue>)

  /** One point of the series the front end draws. */
  datatype HistoryPoint = HistoryPoint(year: int, value: real)

  /** A total whose value is not null. */
  predicate IsTotal(v: KoladaValue) {
    v.gender == "T" && v.value.Some?
  }

  /** The points one item contributes, in value order: at most one per
      value, each carrying the item's period. */
  function ItemPoints(period: int, values: seq<KoladaValue>): (ps: seq<HistoryPoint>)
    ensures |ps| <= |values|
    ensures forall p :: p in ps ==> p.year == period
  {
    if |values| == 0 then []
    else
      var v := values[|values| - 1];
      ItemPoints(period, values[..|values| - 1]) + (if IsTotal(v) then [HistoryPoint(period, v.value.value)] else [])
  }

  /** The series of the whole response, item after item: every point
      carries the period of one of the items. */
  function HistoryOf(items: seq<KoladaItem>): (ps: seq<HistoryPoint>)
    ensures forall p :: p in ps ==> exists i :: 0 <= i < |items| && p.year == items[i].period
  {
    if |items| == 0 then []
    else HistoryOf(items[..|items| - 1]) + ItemPoints(items[|items| - 1].period, items[|items| - 1].values)
  }

  /** Number of non-null totals among `values`. */
  function TotalCount(values: seq<KoladaValue>): nat {
    if |values| == 0 then 0
    else (if IsTotal(values[0]) then 1 else 0) + TotalCount(values[1..])
  }

  /** An item contributes one point per non-null total, not only the first. */
  lemma {:induction false} ItemPointsCount(period: int, values: seq<KoladaValue>)
    ensures |ItemPoints(period, values)| == TotalCount(values)
  {
    if |values| > 0 {
      var n := |values| - 1;
      ItemPointsCount(period, values[..n]);
      TotalCountSnoc(values[..n], values[n]);
      assert values[..n] + [values[n]] == values;
    }
  }

  lemma {:induction false} TotalCountSnoc(values: seq<KoladaValue>, v: KoladaValue)
    ensures TotalCount(values + [v]) == TotalCount(values) + (if IsTotal(v) then 1 else 0)
  {
    if |values| > 0 {
      assert (values + [v])[1..] == values[1..] + [v];
      TotalCountSnoc(values[1..], v);
    } else {
      assert (values + [v])[1..] == [];
    }
  }

  /** An item's points follow its values: the points of two runs of
      values are those of the first run followed by those of the second. */
  lemma {:induction false} ItemPointsAppend(period: int, a: seq<KoladaValue>, b: seq<KoladaValue>)
    ensures ItemPoints(period, a + b) == ItemPoints(period, a) + ItemPoints(period, b)
  {
    if |b| > 0 {
      var n := |b| - 1;
      var init := b[..n];
      assert (a + b)[..|a + b| - 1] == a + init;
      assert (a + b)[|a + b| - 1] == b[n];
      ItemPointsAppend(period, a, init);
    } else {
      assert a + b == a;
    }
  }

  /** A single value yields its point exactly when it is a non-null total;
      with `ItemPointsAppend`, an item yields one point per non-null total,
      in value order. */
  lemma ItemPointsSingle(period: int, v: KoladaValue)
    ensures ItemPoints(period, [v]) == if IsTotal(v) then [HistoryPoint(period, v.value.value)] else []
  {
    assert [v][..0] == [];
  }

  /** A point is in the item's contribution iff it carries the item's
      period and the value of one of its non-null totals. */
  lemma {:induction false} ItemPointsMembership(period: int, values: seq<KoladaValue>, p: HistoryPoint)
    ensures p in ItemPoints(period, values) <==>
            exists v :: v in values && IsTotal(v) && p == HistoryPoint(period, v.value.value)
  {
    if |values| > 0 {
      var n := |values| - 1;
      ItemPointsMembership(period, values[..n], p);
      assert values == values[..n] + [values[n]];
    }
  }

  /** The series of a single item is exactly that item's points: one per
      non-null total, in value order. */
  lemma HistorySingle(it: KoladaItem)
    ensures HistoryOf([it]) == ItemPoints(it.period, it.values)
  {
    assert [it][..0] == [];
  }

  /** The series keeps response order: the series of two runs of items is
      the series of the first followed by that of the second. */
  lemma {:induction false} HistoryAppend(a: seq<KoladaItem>, b: seq<KoladaItem>)
    ensures HistoryOf(a + b) == HistoryOf(a) + HistoryOf(b)
  {
    if |b| > 0 {
      var n := |b| - 1;
      assert (a + b)[..|a + b| - 1] == a + b[..n];
      HistoryAppend(a, b[..n]);
    } else {
      assert a + b == a;
    }
  }

  /** A point is in the series iff it is (period, value) of a non-null
      total of some item. */
  lemma {:induction false} HistoryMembership(items: seq<KoladaItem>, p: HistoryPoint)
    ensures p in HistoryOf(items) <==>
            exists i, v :: 0 <= i < |items| && v in items[i].values && IsTotal(v) &&
                           p == HistoryPoint(items[i].period, v.value.value)
  {
    if |items| > 0 {
      var n := |items| - 1;
      HistoryMembership(items[..n], p);
      ItemPointsMembership(items[n].period, items[n].values, p);
      assert forall i :: 0 <= i < n ==> items[..n][i] == items[i];
    }
  }

  /** The extraction loop of `get_historical_data`. */
  method ExtractHistory(items: seq<KoladaItem>) returns (historicalData: seq<HistoryPoint>)
    ensures historicalData == HistoryOf(items)
  {
    historicalData := [];
    var i := 0;
    while i < |items|
      invariant 0 <= i <= |items|
      invariant historicalData == HistoryOf(items[..i])
    {
      var item := items[i];
      ghost var before := historicalData;
      var j := 0;
      while j < |item.values|
        invariant 0 <= j <= |item.values|
        invariant historicalData == before + ItemPoints(item.period, item.values[..j])
      {
        var value := item.values[j];
        if value.gender == "T" && value.value.Some? {
          historicalData := historicalData + [HistoryPoint(item.period, value.value.value)];
        }
        assert item.values[..j + 1][..j] == item.values[..j];
        j := j + 1;
      }
      assert item.values[..j] == item.values;
      assert items[..i + 1][..i] == items[..i];
      i := i + 1;
    }
    assert items[..|items|] == items;
  }
}
