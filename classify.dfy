/** The choropleth classification of the map page: percentile breakpoints
    over the sorted values, the bucket and colour of a value, the legend
    ranges and the fill style of a region. */
module Classify {
  import opened Wrappers
  import opened Sequences

  type Color = string

  /** Fill of a region without data (or with a falsy value). */
  const NoDataColor: Color := "#CCCCCC"

  /** The eight bucket colours, red (bucket 0) to green (bucket 7). */
  const Palette: seq<Color> := ["#d73027", "#f46d43", "#fdae61", "#fee08b",
                                "#d9ef8b", "#a6d96a", "#66bd63", "#1a9850"]

  /** Colour of values above the highest breakpoint when high is good,
      and when low is good. */
  const AboveHighIsGood: Color := "#1a9850"
  const AboveLowIsGood: Color := "#d73027"

  /** JavaScript array read `s[i]`: undefined (None) outside the array. */
  function At<T>(s: seq<T>, i: int): (r: Option<T>)
    ensures r.Some? <==> 0 <= i < |s|
    ensures r.Some? ==> r.value == s[i]
  {
    if 0 <= i < |s| then Some(s[i]) else None
  }

  /** JavaScript truthiness of a value: undefined, null and 0 are falsy. */
  predicate Falsy(v: Option<real>) {
    v.None? || v.value == 0.0
  }

  /** JavaScript `v <= bp`, which is false when `bp` is undefined. */
  predicate AtMost(v: real, bp: Option<real>) {
    bp.Some? && v <= bp.value
  }

  /** The i-th breakpoint (i = 1..8) is the value at this index of the n
      sorted values: `Math.floor(n * (i / 10))` read as exact arithmetic. */
  function PercentileIndex(n: nat, i: nat): nat {
    n * i / 10
  }

  /** The breakpoints `updateMap` computes from the sorted values. */
  function PercentilesOf(values: seq<real>): (p: seq<Option<real>>)
    ensures |p| == 8
  {
    seq(8, k requires 0 <= k < 8 => At(values, PercentileIndex(|values|, k + 1)))
  }

  /** Breakpoint k is the value at the (k+1)-th percentile index. */
  lemma PercentileAt(values: seq<real>, k: nat)
    requires k < 8
    ensures PercentilesOf(values)[k] == At(values, PercentileIndex(|values|, k + 1))
  {
  }

  /** Breakpoints are non-decreasing wherever they are defined, and all of
      them are defined. */
  predicate NonDecreasing(p: seq<Option<real>>) {
    forall i, j :: 0 <= i < j < |p| ==> p[i].Some? && p[j].Some? && p[i].value <= p[j].value
  }

  lemma PercentileIndexBelow(n: nat, i: nat)
    requires 1 <= n && 1 <= i <= 8
    ensures PercentileIndex(n, i) < n
  {
    assert n * i <= n * 8;
  }

  lemma PercentileIndexMonotone(n: nat, i: nat, j: nat)
    requires i <= j
    ensures PercentileIndex(n, i) <= PercentileIndex(n, j)
  {
    assert n * i <= n * j;
  }

  /** With at least one value, every breakpoint is one of the values. */
  lemma PercentilesAreValues(values: seq<real>)
    requires |values| >= 1
    ensures forall k :: 0 <= k < 8 ==> PercentilesOf(values)[k].Some? && PercentilesOf(values)[k].value in values
  {
    forall k | 0 <= k < 8
      ensures PercentilesOf(values)[k].Some? && PercentilesOf(values)[k].value in values
    {
      PercentileAt(values, k);
      PercentileIndexBelow(|values|, k + 1);
    }
  }

  /** Over sorted values the breakpoints are non-decreasing. */
  lemma PercentilesNonDecreasing(values: seq<real>)
    requires |values| >= 1 && Sorted(values)
    ensures NonDecreasing(PercentilesOf(values))
  {
    var p := PercentilesOf(values);
    PercentilesAreValues(values);
    forall i, j | 0 <= i < j < 8
      ensures p[i].value <= p[j].value
    {
      PercentileAt(values, i);
      PercentileAt(values, j);
      PercentileIndexMonotone(|values|, i + 1, j + 1);
      PercentileIndexBelow(|values|, j + 1);
      var a, b := PercentileIndex(|values|, i + 1), PercentileIndex(|values|, j + 1);
      assert a == b || values[a] <= values[b];
    }
  }

  /** Without values every breakpoint is undefined. */
  lemma PercentilesOfNothing()
    ensures forall k :: 0 <= k < 8 ==> PercentilesOf([])[k].None?
  {
    forall k | 0 <= k < 8
      ensures PercentilesOf([])[k].None?
    {
      PercentileAt([], k);
    }
  }

  /** The percentile loop of `updateMap`. */
  method ComputePercentiles(values: seq<real>) returns (percentiles: seq<Option<real>>)
    ensures percentiles == PercentilesOf(values)
    ensures |values| >= 1 ==> forall k :: 0 <= k < |percentiles| ==>
              percentiles[k].Some? && percentiles[k].value in values
    ensures |values| >= 1 && Sorted(values) ==> NonDecreasing(percentiles)
  {
    percentiles := [];
    var i := 1;
    while i < 9
      invariant 1 <= i <= 9
      invariant percentiles == PercentilesOf(values)[..i - 1]
    {
      var index := PercentileIndex(|values|, i);
      PercentileAt(values, i - 1);
      percentiles := percentiles + [At(values, index)];
      i := i + 1;
    }
    if |values| >= 1 {
      PercentilesAreValues(values);
      if Sorted(values) {
        PercentilesNonDecreasing(values);
      }
    }
  }

  /** The index of the first breakpoint that `v` does not exceed, or |p|
      when `v` exceeds them all: the scan of `getColor`. */
  function Bucket(v: real, p: seq<Option<real>>): (b: nat)
    ensures b <= |p|
    ensures b < |p| ==> AtMost(v, p[b])
    ensures forall k :: 0 <= k < b ==> !AtMost(v, p[k])
  {
    if |p| == 0 then 0
    else if AtMost(v, p[0]) then 0
    else
      var b := 1 + Bucket(v, p[1..]);
      assert forall k :: 1 <= k < |p| ==> p[k] == p[1..][k - 1];
      b
  }

  /** `getColor(value, percentiles)` under the direction flag `highIsGood`
      (the global `isHighToLow`): grey iff the value is falsy, whatever the
      direction; otherwise the palette colour of its bucket, mirrored when
      low is good, with a value above every breakpoint drawn like bucket 7. */
  function GetColor(value: Option<real>, percentiles: seq<Option<real>>, highIsGood: bool): (c: Color)
    requires |percentiles| == |Palette|
    ensures Falsy(value) ==> c == NoDataColor
    ensures !Falsy(value) ==> c == Palette[ColorIndex(Bucket(value.value, percentiles), highIsGood)]
    ensures c == NoDataColor <==> Falsy(value)
  {
    PaletteDistinct();
    if Falsy(value) then NoDataColor
    else
      var i := Bucket(value.value, percentiles);
      if i < |percentiles| then
        if highIsGood then Palette[i] else Palette[|Palette| - 1 - i]
      else if highIsGood then AboveHighIsGood else AboveLowIsGood
  }

  /** The palette position a bucket is drawn with: a value above every
      breakpoint is drawn like bucket 7; low-is-good mirrors the palette. */
  function ColorIndex(bucket: nat, highIsGood: bool): (k: nat)
    ensures k < 8
  {
    var i := if bucket < 8 then bucket else 7;
    if highIsGood then i else 7 - i
  }

  /** Palette colours are distinct, and none is the no-data grey. */
  lemma PaletteDistinct()
    ensures forall i, j :: 0 <= i < j < |Palette| ==> Palette[i] != Palette[j]
    ensures NoDataColor !in Palette
  {
    assert forall i :: 0 <= i < |Palette| ==> |Palette[i]| == 7;
    var keys := ['d', '7', 'f', '4', 'f', 'd', 'f', 'e', 'd', '9', 'a', '6', '6', '6', '1', 'a'];
    assert forall i :: 0 <= i < |Palette| ==> Palette[i][1] == keys[2 * i] && Palette[i][2] == keys[2 * i + 1];
    assert NoDataColor[1] == 'C';
  }

  /** The bucket of a value is monotone in the value, whatever the breakpoints. */
  lemma {:induction false} BucketMonotone(a: real, b: real, p: seq<Option<real>>)
    requires a <= b
    ensures Bucket(a, p) <= Bucket(b, p)
  {
    if |p| > 0 && !AtMost(a, p[0]) {
      BucketMonotone(a, b, p[1..]);
    }
  }

  /** Larger (truthy) values get colours further toward green when high is
      good, and further toward red when low is good. */
  lemma ColorMonotone(a: real, b: real, p: seq<Option<real>>)
    requires a <= b && |p| == 8
    ensures ColorIndex(Bucket(a, p), true) <= ColorIndex(Bucket(b, p), true)
    ensures ColorIndex(Bucket(a, p), false) >= ColorIndex(Bucket(b, p), false)
  {
    BucketMonotone(a, b, p);
  }

  /** The colour drawn with the other direction flag: the palette mirrored,
      no-data grey unchanged. */
  function Mirror(c: Color): Color {
    if c in Palette then Palette[7 - IndexIn(Palette, c)] else c
  }

  /** Position of `c` in `s`. */
  function IndexIn(s: seq<Color>, c: Color): (k: nat)
    requires c in s
    ensures k < |s| && s[k] == c
    ensures forall j :: 0 <= j < k ==> s[j] != c
  {
    if s[0] == c then 0
    else
      var k := 1 + IndexIn(s[1..], c);
      assert forall j :: 1 <= j < |s| ==> s[j] == s[1..][j - 1];
      k
  }

  /** Mirroring maps palette colour k to palette colour 7 - k. */
  lemma MirrorPalette(k: nat)
    requires k < 8
    ensures Mirror(Palette[k]) == Palette[7 - k]
  {
    var j := IndexIn(Palette, Palette[k]);
    assert Palette[j] == Palette[k];
    PaletteDistinct();
  }

  /** Mirroring leaves the no-data grey alone. */
  lemma MirrorGrey()
    ensures Mirror(NoDataColor) == NoDataColor
  {
    PaletteDistinct();
  }

  /** Toggling the direction mirrors every colour and leaves the
      breakpoints alone; toggling twice restores every colour. */
  lemma ToggleMirrors(value: Option<real>, p: seq<Option<real>>, highIsGood: bool)
    requires |p| == 8
    ensures GetColor(value, p, !highIsGood) == Mirror(GetColor(value, p, highIsGood))
    ensures Mirror(Mirror(GetColor(value, p, highIsGood))) == GetColor(value, p, highIsGood)
  {
    if Falsy(value) {
      MirrorGrey();
    } else {
      var b := Bucket(value.value, p);
      var k := ColorIndex(b, highIsGood);
      assert GetColor(value, p, highIsGood) == Palette[k];
      assert GetColor(value, p, !highIsGood) == Palette[7 - k];
      MirrorPalette(k);
      MirrorPalette(7 - k);
    }
  }

  /** The worked example of ten values 10, 20, ..., 100: the first
      breakpoint is 20, value 20 is red and value 100 is green. */
  lemma TenValuesExample()
    ensures PercentilesOf([10.0, 20.0, 30.0, 40.0, 50.0, 60.0, 70.0, 80.0, 90.0, 100.0])[0] == Some(20.0)
    ensures GetColor(Some(20.0), PercentilesOf([10.0, 20.0, 30.0, 40.0, 50.0, 60.0, 70.0, 80.0, 90.0, 100.0]), true) == "#d73027"
    ensures GetColor(Some(100.0), PercentilesOf([10.0, 20.0, 30.0, 40.0, 50.0, 60.0, 70.0, 80.0, 90.0, 100.0]), true) == "#1a9850"
  {
    var vs := [10.0, 20.0, 30.0, 40.0, 50.0, 60.0, 70.0, 80.0, 90.0, 100.0];
    var p := PercentilesOf(vs);
    forall k | 0 <= k < 8
      ensures p[k] == At(vs, PercentileIndex(10, k + 1))
    {
      PercentileAt(vs, k);
    }
    assert p == [Some(20.0), Some(30.0), Some(40.0), Some(50.0), Some(60.0), Some(70.0), Some(80.0), Some(90.0)];
    assert Bucket(20.0, p) == 0;
    assert Bucket(100.0, p) == 8;
  }

  /** `Math.floor`; Math.floor(undefined) is NaN, modelled as None. */
  function FloorOf(x: Option<real>): Option<int> {
    match x
    case Some(r) => Some(r.Floor)
    case None => None
  }

  /** One line of the legend: a swatch and a range, or the final
      "above the highest breakpoint" line. */
  datatype LegendEntry =
    | Range(swatch: Color, from: Option<int>, to: Option<int>)
    | Above(swatch: Color, bound: Option<int>)

  /** The legend `updateMap` builds from the sorted values and their breakpoints. */
  function Legend(values: seq<real>, percentiles: seq<Option<real>>, highIsGood: bool): (legend: seq<LegendEntry>)
    requires |percentiles| == 8
    ensures |legend| == 9
    ensures forall k :: 0 <= k < 8 ==> legend[k].Range?
    ensures legend[8].Above?
    ensures legend[0].from == FloorOf(At(values, 0))
    ensures forall k :: 1 <= k < 8 ==> legend[k].from == legend[k - 1].to
    ensures forall k :: 0 <= k < 8 ==> legend[k].to == FloorOf(percentiles[k])
    ensures legend[8].bound == legend[7].to
    ensures legend[8].swatch == GetColor(At(values, |values| - 1), percentiles, highIsGood)
  {
    seq(8, i requires 0 <= i < 8 =>
      Range(GetColor(percentiles[i], percentiles, highIsGood),
            if i == 0 then FloorOf(At(values, 0)) else FloorOf(percentiles[i - 1]),
            FloorOf(percentiles[i])))
    + [Above(GetColor(At(values, |values| - 1), percentiles, highIsGood), FloorOf(percentiles[7]))]
  }

  /** For at least one sorted value, every legend bound is a number, the
      first range starts at the floored minimum, and the ranges ascend. */
  lemma LegendBoundsAscend(values: seq<real>, highIsGood: bool)
    requires |values| >= 1 && Sorted(values)
    ensures var legend := Legend(values, PercentilesOf(values), highIsGood);
            && legend[0].from == Some(values[0].Floor)
            && (forall k :: 0 <= k < 8 ==> legend[k].from.Some? && legend[k].to.Some? &&
                                           legend[k].from.value <= legend[k].to.value)
            && legend[8].bound.Some?
  {
    var p := PercentilesOf(values);
    PercentilesAreValues(values);
    PercentilesNonDecreasing(values);
    var legend := Legend(values, p, highIsGood);
    forall k | 0 <= k < 8
      ensures legend[k].from.Some? && legend[k].to.Some? && legend[k].from.value <= legend[k].to.value
    {
      if k == 0 {
        var idx :| 0 <= idx < |values| && values[idx] == p[0].value;
        assert values[0] <= values[idx];
      } else {
        assert p[k - 1].value <= p[k].value;
      }
    }
  }

  /** The swatch of legend line k is the colour of a bucket no higher than k:
      breakpoint k does not exceed itself. */
  lemma LegendSwatchBucket(values: seq<real>, highIsGood: bool, k: nat)
    requires |values| >= 1 && k < 8
    requires var p := PercentilesOf(values); p[k].Some? && p[k].value != 0.0
    ensures var p := PercentilesOf(values);
            && Bucket(p[k].value, p) <= k
            && Legend(values, p, highIsGood)[k].swatch == Palette[ColorIndex(Bucket(p[k].value, p), highIsGood)]
  {
  }

  /** Fill style of a region on the map. */
  datatype RegionStyle = RegionStyle(fillColor: Color, fillOpacity: real)

  /** The style callback of the region layer, for a region's value. */
  function StyleOf(value: Option<real>, percentiles: seq<Option<real>>, highIsGood: bool): (s: RegionStyle)
    requires |percentiles| == 8
    ensures s.fillOpacity == 0.1 <==> s.fillColor == NoDataColor
  {
    RegionStyle(GetColor(value, percentiles, highIsGood), if Falsy(value) then 0.1 else 0.7)
  }
}
