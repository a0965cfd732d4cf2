/** The state of the map page and its event handlers: KPI selection and
    the year select, the value-map rebuild and re-render, the sort-direction
    button, and the hover handlers with their single-flight guard for the
    historical series. */
module Frontend {
  import opened Wrappers
  import opened Sequences
  import opened MunicipalityValues
  import opened Classify
  import opened KpiCatalog
  import opened HistoricalData
  import opened BackendLists

  /** The selected KPI: its id and the title shown in the search box. */
  datatype SelectedKpi = SelectedKpi(id: string, title: string)

  /** What `updateMap` draws: the breakpoints, the legend lines and the
      style of every region of the map, in feature order. */
  datatype Rendering = Rendering(percentiles: seq<Option<real>>, legend: seq<LegendEntry>, styles: seq<RegionStyle>)

  /** The rendering of the value map over the regions `features`: eight
      breakpoints, nine legend lines and one style per region. */
  function RenderingOf(kpiData: ValueMap, features: seq<MunicipalityId>, highIsGood: bool): (r: Rendering)
    ensures |r.percentiles| == 8 && |r.legend| == 9 && |r.styles| == |features|
  {
    var values := SortSeq(ValuesOf(kpiData));
    var percentiles := PercentilesOf(values);
    Rendering(percentiles, Legend(values, percentiles, highIsGood),
              seq(|features|, k requires 0 <= k < |features| => StyleOf(Lookup(kpiData, features[k]), percentiles, highIsGood)))
  }

  /** A region is drawn grey, at opacity 0.1, iff it has no value or a zero
      value in the map. */
  lemma RenderingGrey(kpiData: ValueMap, features: seq<MunicipalityId>, highIsGood: bool)
    ensures var r := RenderingOf(kpiData, features, highIsGood);
            forall k :: 0 <= k < |features| ==>
              && (r.styles[k].fillColor == NoDataColor <==> Falsy(Lookup(kpiData, features[k])))
              && (r.styles[k].fillOpacity == 0.1 <==> Falsy(Lookup(kpiData, features[k])))
  {
  }

  /** Breakpoints and legend depend only on the multiset of values, not on
      the order in which the object enumerates them. */
  lemma RenderingIgnoresOrder(a: ValueMap, b: ValueMap, features: seq<MunicipalityId>, highIsGood: bool)
    requires multiset(ValuesOf(a)) == multiset(ValuesOf(b))
    ensures RenderingOf(a, features, highIsGood).percentiles == RenderingOf(b, features, highIsGood).percentiles
    ensures RenderingOf(a, features, highIsGood).legend == RenderingOf(b, features, highIsGood).legend
  {
    SortedUnique(SortSeq(ValuesOf(a)), SortSeq(ValuesOf(b)));
  }

  /** With at least one value, the rendered breakpoints are eight of the
      values, non-decreasing. */
  lemma RenderingBreakpoints(kpiData: ValueMap, features: seq<MunicipalityId>, highIsGood: bool)
    requires |kpiData| >= 1
    ensures var p := RenderingOf(kpiData, features, highIsGood).percentiles;
            && |p| == 8 && NonDecreasing(p)
            && forall k :: 0 <= k < 8 ==> p[k].Some? && p[k].value in ValuesOf(kpiData)
  {
    var values := SortSeq(ValuesOf(kpiData));
    assert |values| == |multiset(values)| == |multiset(ValuesOf(kpiData))| == |kpiData|;
    PercentilesAreValues(values);
    PercentilesNonDecreasing(values);
    forall k | 0 <= k < 8
      ensures PercentilesOf(values)[k].value in ValuesOf(kpiData)
    {
      assert PercentilesOf(values)[k].value in multiset(values);
    }
  }

  /** Flipping the direction keeps the breakpoints and mirrors every
      region's fill colour. */
  lemma ToggleMirrorsRendering(kpiData: ValueMap, features: seq<MunicipalityId>, highIsGood: bool)
    ensures RenderingOf(kpiData, features, !highIsGood).percentiles == RenderingOf(kpiData, features, highIsGood).percentiles
    ensures forall k :: 0 <= k < |features| ==>
              RenderingOf(kpiData, features, !highIsGood).styles[k].fillColor ==
              Mirror(RenderingOf(kpiData, features, highIsGood).styles[k].fillColor)
  {
    var p := PercentilesOf(SortSeq(ValuesOf(kpiData)));
    forall k | 0 <= k < |features|
      ensures GetColor(Lookup(kpiData, features[k]), p, !highIsGood) == Mirror(GetColor(Lookup(kpiData, features[k]), p, highIsGood))
    {
      ToggleMirrors(Lookup(kpiData, features[k]), p, highIsGood);
    }
  }

  /** The year the select shows after a KPI is chosen and the years for
      which a change event (and so a data request) fires, in order. */
  datatype YearOutcome = YearOutcome(selected: Option<int>, changes: seq<int>)

  /** `populateYearSelect` followed by the restore step of `selectKpi`:
      the default is last year when offered; a previous choice that is
      still offered wins. */
  function YearSelection(previous: Option<int>, years: seq<int>, currentYear: int): (r: YearOutcome)
    ensures previous.Some? && previous.value in years ==> r.selected == previous
    ensures !(previous.Some? && previous.value in years) ==>
              r.selected == (if currentYear - 1 in years then Some(currentYear - 1) else None)
    ensures r.selected.Some? ==> r.selected.value in years
    ensures |r.changes| > 0 <==> r.selected.Some?
    ensures |r.changes| > 0 ==> r.changes[|r.changes| - 1] == r.selected.value
    ensures |r.changes| <= 2
    ensures currentYear - 1 in years ==> r.changes[0] == currentYear - 1
  {
    var defaultYear := currentYear - 1;
    var afterPopulate := if defaultYear in years then Some(defaultYear) else None;
    var populateChanges := if defaultYear in years then [defaultYear] else [];
    if previous.Some? && previous.value in years then YearOutcome(previous, populateChanges + [previous.value])
    else YearOutcome(afterPopulate, populateChanges)
  }

  /** Against the back end's six-year list, a year is always selected: the
      previous one when it is among the six, last year otherwise. */
  lemma YearAlwaysSelected(previous: Option<int>, currentYear: int)
    ensures var r := YearSelection(previous, YearsList(currentYear), currentYear);
            r.selected == if previous.Some? && currentYear - 5 <= previous.value <= currentYear
                          then previous else Some(currentYear - 1)
  {
  }

  function YearKey(p: HistoryPoint): real {
    p.year as real
  }

  /** `values.sort((a, b) => a - b)` on a fresh array of the values. */
  method SortValues(vals: seq<real>) returns (sorted: seq<real>)
    ensures sorted == SortSeq(vals)
  {
    var values := new real[|vals|](k requires 0 <= k < |vals| => vals[k]);
    assert values[..] == vals;
    SortByKey(values, (x: real) => x);
    SortedByIdentity(values[..]);
    SortedUnique(values[..], SortSeq(vals));
    sorted := values[..];
  }

  /** The page's global state. */
  class Dashboard {
    var currentKpiData: ValueMap
    var isHighToLow: bool
    var selectedKpi: Option<SelectedKpi>
    var selectedYear: Option<int>
    var isLoadingHistory: bool
    var lastMunicipalityId: Option<MunicipalityId>
    /** Whether `geojsonLayer` exists: the regions, and their hover
        handlers, are there only once `updateMap` has drawn them. */
    var layerDrawn: bool
    var currentChart: Option<seq<HistoryPoint>>
    /** Historical-data requests issued and not yet answered. */
    ghost var pendingFetches: nat

    /** The loading flag is up only while a request is out, for a hovered
        region and a selected KPI; data is loaded and the layer drawn only
        once a KPI has been selected, which is never undone. */
    ghost predicate Valid()
      reads this
    {
      && DistinctIds(currentKpiData)
      && (isLoadingHistory ==> pendingFetches > 0 && lastMunicipalityId.Some? && selectedKpi.Some?)
      && (|currentKpiData| > 0 ==> selectedKpi.Some?)
      && (layerDrawn ==> selectedKpi.Some?)
    }

    constructor ()
      ensures Valid()
      ensures currentKpiData == [] && isHighToLow && selectedKpi == None && selectedYear == None
      ensures !isLoadingHistory && lastMunicipalityId == None && currentChart == None && !layerDrawn
      ensures pendingFetches == 0
    {
      currentKpiData := [];
      isHighToLow := true;
      selectedKpi := None;
      selectedYear := None;
      isLoadingHistory := false;
      lastMunicipalityId := None;
      currentChart := None;
      layerDrawn := false;
      pendingFetches := 0;
    }

    /** `selectKpi`: `years` is the /kpi_data response (None when the
        request fails), `currentYear` the clock. Returns the years whose
        data is requested by the change events it fires. */
    method SelectKpi(kpi: Kpi, years: Option<seq<int>>, currentYear: int) returns (yearRequests: seq<int>)
      requires Valid()
      modifies this`selectedKpi, this`selectedYear
      ensures Valid()
      ensures selectedKpi == Some(SelectedKpi(kpi.id, kpi.title + " (" + kpi.groupTitle + ")"))
      ensures years.None? ==> selectedYear == old(selectedYear) && yearRequests == []
      ensures years.Some? ==>
                var r := YearSelection(old(selectedYear), years.value, currentYear);
                selectedYear == r.selected && yearRequests == r.changes
    {
      selectedKpi := Some(SelectedKpi(kpi.id, kpi.title + " (" + kpi.groupTitle + ")"));
      yearRequests := [];
      if years.Some? {
        var r := YearSelection(selectedYear, years.value, currentYear);
        selectedYear := r.selected;
        yearRequests := r.changes;
      }
    }

    /** `updateMap`: sort the values, take the breakpoints, and style the
        regions and the legend. */
    method UpdateMap(features: seq<MunicipalityId>) returns (r: Rendering)
      requires Valid() && selectedKpi.Some?
      modifies this`layerDrawn
      ensures Valid() && layerDrawn
      ensures r == RenderingOf(currentKpiData, features, isHighToLow)
    {
      var kpiData, highIsGood := currentKpiData, isHighToLow;
      var vals := ValuesOf(kpiData);
      var sorted := SortValues(vals);
      var percentiles := ComputePercentiles(sorted);
      var legend := Legend(sorted, percentiles, highIsGood);
      var styles := seq(|features|, k requires 0 <= k < |features| =>
                          StyleOf(Lookup(kpiData, features[k]), percentiles, highIsGood));
      r := Rendering(percentiles, legend, styles);
      layerDrawn := true;
    }

    /** The year select's change handler together with the arrival of the
        /municipality_data response (`response`, None when the request
        fails): a successful response replaces the value map and redraws. */
    method ChangeYear(year: Option<int>, response: Option<seq<MunicipalityRecord>>, features: seq<MunicipalityId>)
      returns (rendering: Option<Rendering>)
      requires Valid()
      modifies this`selectedYear, this`currentKpiData, this`layerDrawn
      ensures Valid()
      ensures selectedYear == year
      ensures layerDrawn == (old(layerDrawn) || rendering.Some?)
      ensures selectedKpi.Some? && year.Some? && response.Some? ==>
                currentKpiData == ValueMapOf(response.value) &&
                rendering == Some(RenderingOf(currentKpiData, features, isHighToLow))
      ensures !(selectedKpi.Some? && year.Some? && response.Some?) ==>
                currentKpiData == old(currentKpiData) && rendering == None
    {
      selectedYear := year;
      rendering := None;
      if selectedKpi.Some? && year.Some? && response.Some? {
        currentKpiData := BuildValueMap(response.value);
        var r := UpdateMap(features);
        rendering := Some(r);
      }
    }

    /** The sort-direction button: flips the flag and redraws when there
        is data. */
    method ToggleDirection(features: seq<MunicipalityId>) returns (rendering: Option<Rendering>)
      requires Valid()
      modifies this`isHighToLow, this`layerDrawn
      ensures Valid()
      ensures isHighToLow == !old(isHighToLow)
      ensures layerDrawn == (old(layerDrawn) || rendering.Some?)
      ensures rendering.Some? <==> |currentKpiData| > 0
      ensures rendering.Some? ==> rendering.value == RenderingOf(currentKpiData, features, isHighToLow)
    {
      isHighToLow := !isHighToLow;
      rendering := None;
      if |currentKpiData| > 0 {
        var r := UpdateMap(features);
        rendering := Some(r);
      }
    }

    /** `mouseover` on region `id`, including the synchronous part of
        `showHistoricalData`. Returns whether a historical-data request was
        issued. A region can be hovered only once the layer is drawn, so a
        KPI is always selected here and the `!selectedKpi` guard of
        `showHistoricalData` never fires. */
    method MouseOver(id: MunicipalityId) returns (fetchIssued: bool)
      requires Valid() && layerDrawn
      modifies this`lastMunicipalityId, this`isLoadingHistory, this`currentChart, this`pendingFetches
      ensures Valid()
      ensures fetchIssued <==> !old(isLoadingHistory) && old(lastMunicipalityId) != Some(id)
      ensures lastMunicipalityId ==
                if !old(isLoadingHistory) && old(lastMunicipalityId) != Some(id) then Some(id) else old(lastMunicipalityId)
      ensures isLoadingHistory <==> old(isLoadingHistory) || fetchIssued
      ensures currentChart == if fetchIssued then None else old(currentChart)
      ensures pendingFetches == old(pendingFetches) + if fetchIssued then 1 else 0
    {
      fetchIssued := false;
      if !isLoadingHistory && lastMunicipalityId != Some(id) {
        lastMunicipalityId := Some(id);
        if selectedKpi.Some? && !isLoadingHistory {
          isLoadingHistory := true;
          currentChart := None;
          pendingFetches := pendingFetches + 1;
          fetchIssued := true;
        }
      }
    }

    /** Completion of a historical-data request (`response` is None when
        the request or its decoding fails): the series is sorted by year
        and charted, and the flag comes down on every path. */
    method FetchDone(response: Option<seq<HistoryPoint>>)
      requires Valid() && pendingFetches > 0
      modifies this`isLoadingHistory, this`currentChart, this`pendingFetches
      ensures Valid()
      ensures !isLoadingHistory
      ensures pendingFetches == old(pendingFetches) - 1
      ensures response.None? ==> currentChart == old(currentChart)
      ensures response.Some? ==> currentChart.Some? && SortedBy(currentChart.value, YearKey) &&
                                  multiset(currentChart.value) == multiset(response.value)
    {
      if response.Some? {
        var series := response.value;
        var data := new HistoryPoint[|series|](k requires 0 <= k < |series| => series[k]);
        assert data[..] == series;
        SortByKey(data, YearKey);
        currentChart := Some(data[..]);
      }
      isLoadingHistory := false;
      pendingFetches := pendingFetches - 1;
    }

    /** `mouseout`: the chart goes and the guard is reset, whether or not a
        request is still out. */
    method MouseOut()
      requires Valid()
      modifies this`lastMunicipalityId, this`isLoadingHistory, this`currentChart
      ensures Valid()
      ensures lastMunicipalityId == None && !isLoadingHistory && currentChart == None
    {
      currentChart := None;
      lastMunicipalityId := None;
      isLoadingHistory := false;
    }
  }

  function Count(b: bool): nat {
    if b then 1 else 0
  }

  /** With nothing chosen before and last year on offer, last year is
      selected and requested once. */
  lemma LastYearOffered(year: int)
    ensures YearSelection(None, [year], year + 1) == YearOutcome(Some(year), [year])
  {
  }

  /** A fresh page on which `kpi` was chosen while the back end offered
      only `year` (last year): the select shows it and its change event
      requests it. */
  method ChooseKpi(kpi: Kpi, year: int) returns (page: Dashboard, yearRequests: seq<int>)
    ensures fresh(page) && page.Valid() && page.selectedKpi.Some? && page.selectedYear == Some(year)
    ensures yearRequests == [year]
    ensures !page.isLoadingHistory && page.lastMunicipalityId == None && page.pendingFetches == 0
  {
    page := new Dashboard();
    LastYearOffered(year);
    yearRequests := page.SelectKpi(kpi, Some([year]), year + 1);
  }

  /** A page on which `kpi` was chosen, the back end offered `year`, the
      select's change event requested it and its data `data` was drawn
      over the regions `features`, with no region hovered yet. */
  method OpenPage(kpi: Kpi, year: int, data: seq<MunicipalityRecord>, features: seq<MunicipalityId>)
    returns (page: Dashboard)
    ensures fresh(page) && page.Valid() && page.layerDrawn
    ensures page.selectedYear == Some(year) && page.currentKpiData == ValueMapOf(data)
    ensures !page.isLoadingHistory && page.lastMunicipalityId == None && page.pendingFetches == 0
  {
    var yearRequests;
    page, yearRequests := ChooseKpi(kpi, year);
    var drawn := page.ChangeYear(Some(yearRequests[0]), Some(data), features);
  }

  /** Hovering a region twice without leaving it requests its series once,
      whether or not the first request has completed. */
  method HoverSameRegionTwice(kpi: Kpi, id: MunicipalityId, history: Option<seq<HistoryPoint>>)
    returns (fetchesAnswered: nat, fetchesPending: nat)
    ensures fetchesAnswered == 1 && fetchesPending == 1
  {
    var page := OpenPage(kpi, 2023, [], [id]);
    var first := page.MouseOver(id);
    page.FetchDone(history);
    var second := page.MouseOver(id);
    fetchesAnswered := Count(first) + Count(second);

    page := OpenPage(kpi, 2023, [], [id]);
    first := page.MouseOver(id);
    second := page.MouseOver(id);
    fetchesPending := Count(first) + Count(second);
  }

  /** Hovering A, then B, then A again (leaving in between) requests a
      series on each entry. */
  method HoverAThenBThenA(kpi: Kpi, a: MunicipalityId, b: MunicipalityId, history: Option<seq<HistoryPoint>>)
    returns (fetches: nat)
    requires a != b
    ensures fetches == 3
  {
    var page := OpenPage(kpi, 2023, [], [a, b]);
    var f1 := page.MouseOver(a);
    page.FetchDone(history);
    page.MouseOut();
    var f2 := page.MouseOver(b);
    page.FetchDone(history);
    page.MouseOut();
    var f3 := page.MouseOver(a);
    fetches := Count(f1) + Count(f2) + Count(f3);
  }

  /** Leaving a region before its series arrives lowers the flag, so the
      next region's request goes out while the first is still pending:
      two requests overlap. */
  method LeaveBeforeAnswer(kpi: Kpi, a: MunicipalityId, b: MunicipalityId) returns (outstanding: nat)
    ensures outstanding == 2
  {
    var page := OpenPage(kpi, 2023, [], [a, b]);
    var f1 := page.MouseOver(a);
    page.MouseOut();
    var f2 := page.MouseOver(b);
    outstanding := Count(f1) + Count(f2);
  }
}
