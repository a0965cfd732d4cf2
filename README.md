# kommundatakarta in Dafny

A model of the logic of kommundatakarta, a Leaflet dashboard that colours
Swedish municipalities by one Kolada KPI and shows a municipality's history
on hover, with a small Flask back end.

Front end (`KommundataKarta/static/js/main.js`):

- the value map `currentKpiData`, rebuilt from every /municipality_data response;
- the eight percentile breakpoints over the sorted values;
- `getColor`, which gives a value's bucket and its direction-aware colour;
- the legend ranges;
- the sort-direction toggle;
- the KPI and year selection;
- the hover handlers with their single-flight guard, and the year sort of the historical series.

Back end (`app.py`):

- KPI search with its hidden "Enhets…" titles, case-insensitive matching and pages of 50;
- flattening of the KPI groups and the one-shot KPI cache;
- the six-year list;
- the type-"K" municipality filters;
- the extraction of the historical series.

Modules, one per component:

- `Wrappers` (wrappers.dfy): `Option`, which stands for JavaScript's null/undefined and Python's None.
- `Sequences` (sequences.dfy): filtering and sorting.
  - An in-place insertion sort on arrays by a numeric key, used for `values.sort` and `data.sort`.
  - A functional sort with a uniqueness lemma.
- `MunicipalityValues` (value_map.dfy): the value map as a JavaScript object.
  - Its properties are kept in enumeration order.
  - Assignment overwrites in place or appends.
- `Classify` (classify.dfy): the breakpoints, buckets, colours, legend and region style.
- `Frontend` (frontend.dfy): the class `Dashboard`, holding the page's globals.
  - Its methods are the event handlers.
  - It also holds the year selection and hover scenarios.
- `KpiCatalog` (kpi_catalog.dfy): `fetch_all_kpis`, as a flattening loop plus the class `KpiCache`.
- `KpiSearch` (kpi_search.dfy): `search_kpis`.
- `BackendLists` (backend_lists.dfy): the year list and the "K" filters.
- `HistoricalData` (history.dfy): the extraction loop of `get_historical_data`.

Modelling choices:

- **Values and falsiness.** Values are reals. JavaScript null/undefined is `None`. A value is falsy when it is `None` or 0.
- **JavaScript semantics.** An array read outside the array gives `None`. `v <= undefined` is false. `Math.floor(undefined)` (NaN) is `None`.
- **No values.** The percentile loop therefore needs no precondition: with no values it yields eight undefined breakpoints, as the code does.
- **Clock and network.** The clock, HTTP responses and failures are parameters.
- **Years.** Years are integers. The code only compares year strings for equality, and these strings are decimal renderings.
- **One clock.** `YearAlwaysSelected` takes one `currentYear` for both the browser's clock (main.js:109) and the server's clock (app.py:59); it assumes the two agree on the year.
- **Hovering needs a drawn map.** Regions, with their mouseover handlers, exist only after `updateMap` has built the layer, and that happens only once a KPI is selected, which is never undone. `Dashboard` records this as `layerDrawn`, and `MouseOver` requires it. So the `!selectedKpi` check at the top of `showHistoricalData` can never fire.

Behaviour of the code that is easy to miss:

- **Only the first "T" entry counts.** The code takes the FIRST "T" entry of a record (`find`). If that entry's value is null, the record contributes nothing, even when a later "T" entry is non-null.
- **Fetches can overlap.** `mouseout` lowers the loading flag while a request may still be out. Leaving one region and entering another therefore issues a second request before the first is answered. `LeaveBeforeAnswer` proves this. A late answer is still charted after the mouse has left.
- **Selecting a KPI keeps the value map.** Selecting a KPI does not clear `currentKpiData`.
- **Restoring a year requests twice.** Populating the year select fires a change for last year whenever it is offered. Restoring an older previous year then fires a second change. So two /municipality_data requests go out, and their answers race (`YearSelection` gives both, in order).
- **A value of 0 counts as no data.** It is drawn grey at opacity 0.1, like a missing value (`GetColor`). Bucket monotonicity is stated for the bucket of any two reals. The colour is monotone only among truthy values.

## Model

| member | source | states |
|---|---|---|
| `Sequences.Filter` | app.py:97-104 | the kept elements are exactly the input elements meeting the condition, never more than the input |
| `Sequences.FilterAppend` | app.py:100-104 | filtering distributes over concatenation, so kept elements keep input order |
| `Sequences.FilterFilter` | app.py:97-104 | filtering by p then q equals filtering once by p and q |
| `Sequences.SortByKey` | KommundataKarta/static/js/main.js:399 | afterwards the array is ascending by key and a permutation of what it held |
| `Sequences.SinkInto` | KommundataKarta/static/js/main.js:202 | one insertion step: the sorted prefix grows by one element, contents permuted |
| `Sequences.Swap` | KommundataKarta/static/js/main.js:202 | exchanges two elements and leaves the rest, contents permuted |
| `Sequences.Insert` | KommundataKarta/static/js/main.js:202 | inserting into a sorted sequence keeps it sorted and adds exactly the element |
| `Sequences.SortSeq` | KommundataKarta/static/js/main.js:202 | the result is sorted and a permutation of the input |
| `Sequences.SortedUnique` | KommundataKarta/static/js/main.js:201-202 | two sorted sequences with the same elements are equal, so the sorted values do not depend on enumeration order |
| `MunicipalityValues.Lookup` | KommundataKarta/static/js/main.js:218 | `obj[id]` is absent iff no property has that id, else it is that property's value |
| `MunicipalityValues.Put` | KommundataKarta/static/js/main.js:186 | after `obj[id] = v` the id maps to v, every other id is unchanged, ids stay distinct, size grows only for a new id |
| `MunicipalityValues.ValuesAreLookups` | KommundataKarta/static/js/main.js:201 | `Object.values` gives, at position k, what the k-th property's id looks up to, and every id that looks up to a value looks up to one of them |
| `MunicipalityValues.FindTotal` | KommundataKarta/static/js/main.js:183 | none iff no entry has gender "T", else the first entry with gender "T" |
| `MunicipalityValues.TotalOfFirstT` | KommundataKarta/static/js/main.js:182-184 | a record contributes nothing without a "T" entry, and otherwise exactly the (possibly null) value of its first "T" entry |
| `MunicipalityValues.ValueMapOf` | KommundataKarta/static/js/main.js:180-189 | the rebuilt map never holds an id twice |
| `MunicipalityValues.LastTotalAbsent` | KommundataKarta/static/js/main.js:182-187 | a municipality is absent iff no record for it has a non-null first "T" value |
| `MunicipalityValues.LastTotalIsLast` | KommundataKarta/static/js/main.js:181-187 | a present municipality's value is the first-"T" value of the last record for it that has one |
| `MunicipalityValues.ValueMapLookup` | KommundataKarta/static/js/main.js:180-189 | the rebuilt map holds, for every id, exactly the last contributed total (later records overwrite earlier ones) |
| `MunicipalityValues.BuildValueMap` | KommundataKarta/static/js/main.js:180-189 | the `forEach` loop starting from `{}` builds that map, with distinct ids |
| `Classify.PercentilesOf` | KommundataKarta/static/js/main.js:204-208 | exactly eight breakpoints, for any number of values |
| `Classify.PercentileIndexBelow` | KommundataKarta/static/js/main.js:206 | for n >= 1 and i in 1..8, index floor(n*i/10) is below n |
| `Classify.PercentileIndexMonotone` | KommundataKarta/static/js/main.js:206 | the index grows with i |
| `Classify.PercentilesAreValues` | KommundataKarta/static/js/main.js:201-208 | with at least one value every breakpoint is defined and is one of the values |
| `Classify.PercentilesNonDecreasing` | KommundataKarta/static/js/main.js:201-208 | over sorted values the breakpoints are non-decreasing |
| `Classify.PercentilesOfNothing` | KommundataKarta/static/js/main.js:204-208 | with no values all eight breakpoints are undefined |
| `Classify.ComputePercentiles` | KommundataKarta/static/js/main.js:204-208 | the loop yields the eight breakpoints: values of the input, non-decreasing when the input is sorted |
| `Classify.Bucket` | KommundataKarta/static/js/main.js:314-315 | the first index whose breakpoint the value does not exceed, or 8 when it exceeds all |
| `Classify.ColorIndex` | KommundataKarta/static/js/main.js:321-324 | the palette position drawn is always one of the eight colours |
| `Classify.PaletteDistinct` | KommundataKarta/static/js/main.js:311-320 | the eight colours differ from each other and from the no-data grey |
| `Classify.GetColor` | KommundataKarta/static/js/main.js:310-325 | grey iff the value is falsy, in either direction; otherwise palette[i] for bucket i (palette[7-i] when low is good), and above all breakpoints the colour of bucket 7 |
| `Classify.BucketMonotone` | KommundataKarta/static/js/main.js:314-315 | a <= b implies bucket(a) <= bucket(b), for any breakpoints |
| `Classify.ColorMonotone` | KommundataKarta/static/js/main.js:314-324 | larger values sit further toward green when high is good, further toward red when low is good |
| `Classify.MirrorPalette` | KommundataKarta/static/js/main.js:321 | the mirrored colour of palette[k] is palette[7-k] |
| `Classify.ToggleMirrors` | KommundataKarta/static/js/main.js:321-324 | flipping the direction mirrors the colour, and flipping twice restores it |
| `Classify.TenValuesExample` | KommundataKarta/static/js/main.js:201-208 | for 10, 20, ..., 100 the first breakpoint is 20, 20 is red and 100 is green |
| `Classify.Legend` | KommundataKarta/static/js/main.js:283-294 | 8 ranges then one "above" line; the first range starts at floor(min); range k ends at floor(breakpoint k); each later range starts where the previous ends; the "above" bound is the last range's end, and its swatch is the colour of the largest value |
| `Classify.LegendBoundsAscend` | KommundataKarta/static/js/main.js:283-294 | with sorted values all bounds are numbers and each range's start does not exceed its end |
| `Classify.LegendSwatchBucket` | KommundataKarta/static/js/main.js:286-287 | the swatch of line k is the colour of a bucket no higher than k |
| `Classify.StyleOf` | KommundataKarta/static/js/main.js:217-225 | a region is drawn at opacity 0.1 iff it is drawn grey |
| `Frontend.RenderingOf` | KommundataKarta/static/js/main.js:200-225 | eight breakpoints, nine legend lines, one style per region |
| `Frontend.RenderingGrey` | KommundataKarta/static/js/main.js:214-225 | a region is drawn grey, and at opacity 0.1, iff its value is missing or zero |
| `Frontend.RenderingIgnoresOrder` | KommundataKarta/static/js/main.js:201-202 | breakpoints and legend depend only on the multiset of values |
| `Frontend.RenderingBreakpoints` | KommundataKarta/static/js/main.js:200-208 | with data, the drawn breakpoints are eight map values, non-decreasing |
| `Frontend.ToggleMirrorsRendering` | KommundataKarta/static/js/main.js:375-380 | the toggle keeps the breakpoints and mirrors every region's fill |
| `Frontend.YearSelection` | KommundataKarta/static/js/main.js:107-153 | the previous year is kept when still offered, else last year when offered, else none; when last year is offered the first change event requests it, and the last change event requests the final selection |
| `Frontend.YearAlwaysSelected` | KommundataKarta/static/js/main.js:143-153 | against the six-year list some year is always selected: the previous one if among the six, else last year |
| `Frontend.Dashboard.constructor` | KommundataKarta/static/js/main.js:5-14 | the initial globals: empty map, high is good, nothing selected or loading |
| `Frontend.Dashboard.SelectKpi` | KommundataKarta/static/js/main.js:130-160 | sets the KPI and its title; on a year list, selects and requests per `YearSelection`; on failure changes no year |
| `Frontend.SortValues` | KommundataKarta/static/js/main.js:201-202 | sorting an array copy of the values in place yields the sorted permutation of the values |
| `Frontend.Dashboard.UpdateMap` | KommundataKarta/static/js/main.js:200-300 | sorting the values in an array and running the percentile loop draws the breakpoints, legend and styles of the sorted map values, and the layer exists afterwards |
| `Frontend.Dashboard.ChangeYear` | KommundataKarta/static/js/main.js:171-198 | with a KPI, a year and a response, the map is replaced by the rebuilt one and redrawn; otherwise the map is kept |
| `Frontend.Dashboard.ToggleDirection` | KommundataKarta/static/js/main.js:375-381 | flips the direction and redraws iff the map is non-empty |
| `Frontend.Dashboard.MouseOver` | KommundataKarta/static/js/main.js:229-244 | on a drawn map, a request goes out iff not loading and the region differs from the last one; the region is marked in exactly that case |
| `Frontend.Dashboard.FetchDone` | KommundataKarta/static/js/main.js:396-456 | the flag is down on every path; a received series is charted sorted by year, as a permutation of the response |
| `Frontend.Dashboard.MouseOut` | KommundataKarta/static/js/main.js:252-261 | the chart, the last region and the loading flag are always reset |
| `Frontend.HoverSameRegionTwice` | KommundataKarta/static/js/main.js:233-243 | re-hovering a region without leaving requests once, answered or not |
| `Frontend.HoverAThenBThenA` | KommundataKarta/static/js/main.js:233-261 | A, B, A with leaves in between issue three requests |
| `Frontend.LeaveBeforeAnswer` | KommundataKarta/static/js/main.js:252-261 | leaving before the answer lets a second request out while the first is pending |
| `KpiCatalog.FlattenedAppend` | app.py:34-42 | group order: the catalogue of two runs of groups is the first's then the second's |
| `KpiCatalog.FlattenedSingle` | app.py:36-42 | the catalogue of one group is its members' entries in member order; with `FlattenedAppend`, group-then-member order over the whole catalogue |
| `KpiCatalog.Flattened` | app.py:34-42 | the catalogue has one entry per member; groups without members add none |
| `KpiCatalog.FlattenedMembership` | app.py:34-42 | a KPI is listed iff it is the entry of some member of some group, with that group's title and id |
| `KpiCatalog.FlattenGroups` | app.py:34-42 | the nested loop builds the flattened catalogue |
| `KpiCatalog.KpiCache.constructor` | app.py:18-21 | the cache starts unset |
| `KpiCatalog.KpiCache.FetchAllKpis` | app.py:23-50 | a hit returns the cache without a request; a successful miss stores and returns the flattening; a failed miss returns [] and leaves the cache unset |
| `KpiCatalog.TwoCalls` | app.py:25-27 | after a success the second call is served from the cache (one request); after a failure it requests again |
| `KpiSearch.ToLower` | app.py:90 | the lowered string has the same length and no upper-case letter; each upper-case letter becomes its lower-case partner and every other character is kept |
| `KpiSearch.ToLowerIdempotent` | app.py:90 | lowering twice equals lowering once |
| `KpiSearch.ContainsEmpty` | app.py:99-106 | the empty term occurs in every string |
| `KpiSearch.MatchList` | app.py:97-106 | the matches are visible catalogue KPIs, no more than the catalogue holds, each matching the term when the term is not empty |
| `KpiSearch.MatchListSpec` | app.py:97-106 | matches are exactly the visible KPIs whose lowered title or group title contains the lowered term, in input order; the empty term matches every visible KPI |
| `KpiSearch.SearchIgnoresCase` | app.py:90-104 | a term and its lowered form match the same KPIs |
| `KpiSearch.PySlice` | app.py:111 | `s[start:end]` has min(end, len) - min(start, len) elements, the ones from position start on |
| `KpiSearch.SearchKpis` | app.py:88-116 | at most 50 results, all of them matches; `has_more` iff page*50 < number of matches; a full page is the slice [(page-1)*50, page*50) |
| `KpiSearch.SearchResultsVisible` | app.py:97-104 | no result's title starts with "Enhets", and every result contains the term |
| `KpiSearch.PageIsSlice` | app.py:109-111 | each page is the slice between its bounds, capped at the match count |
| `KpiSearch.PagesArePrefix` | app.py:109-115 | pages 1..n are adjacent, disjoint slices forming the first min(50n, count) matches |
| `KpiSearch.AllPagesYieldAllMatches` | app.py:109-115 | requesting pages until `has_more` is false yields every match once, in order |
| `BackendLists.YearsList` | app.py:59-60 | six years, current year first, strictly descending, exactly the years current-5..current |
| `BackendLists.KMunicipalities` | app.py:68 | an entry is listed iff it is in the file and of type "K" |
| `BackendLists.KMunicipalityIds` | app.py:80 | an id is requested iff some "K" entry of the file has it, and no more ids than entries |
| `BackendLists.KMunicipalityIdsMatch` | app.py:80 | the requested ids are the ids of the listed "K" entries, in the same order |
| `HistoricalData.ItemPointsCount` | app.py:132-137 | an item contributes one point per non-null total, not only the first |
| `HistoricalData.ItemPointsMembership` | app.py:132-137 | a point comes from an item iff it is (period, value) of one of the item's non-null totals |
| `HistoricalData.ItemPointsAppend` | app.py:132-137 | an item's points keep value order: the points of two runs of values are the first run's then the second's |
| `HistoricalData.ItemPointsSingle` | app.py:133-137 | a single value yields exactly one point, (period, value), when it is a non-null total, and none otherwise |
| `HistoricalData.ItemPoints` | app.py:130-137 | an item yields at most one point per value, each carrying the item's period |
| `HistoricalData.HistoryAppend` | app.py:130-137 | the series follows response order |
| `HistoricalData.HistorySingle` | app.py:131-137 | one item's part of the series is exactly its points: one per non-null total, in value order; with `HistoryAppend`, the whole series is fixed |
| `HistoricalData.HistoryOf` | app.py:130-137 | every point of the series carries the period of one of the items |
| `HistoricalData.HistoryMembership` | app.py:130-137 | a point is in the series iff it is (period, value) of a non-null total of some item |
| `HistoricalData.ExtractHistory` | app.py:130-137 | the nested loop builds exactly that series |

## Left out

- Leaflet map, tiles, layers, tooltips, info panel, highlight and reset styles, and the legend's HTML and CSS are user-interface only. The model keeps the fill colour, the fill opacity and the legend lines.
- Chart.js is left out. A chart is modelled as the series it would draw.
- Network, files and server plumbing are left out: `fetch`/`requests.get`, Flask routing, `jsonify`, reading `municipality_id.json`, logging and the loading indicator. Responses and failures are parameters.
- The /kpi_groups dropdown load is left out. It calls a route that app.py does not define.
- Request building is left out: the comma-joined municipality ids, the year range of /historical_data, and the empty-year early return of /municipality_data.
- Search debounce and scroll-triggered paging in the page are left out. The server-side paging contract they rely on is modelled, as `AllPagesYieldAllMatches`.
- Asynchrony is left out. A year change and its response form one step (`ChangeYear`). A completion is not tied to the request it answers. Stale responses are not detected, as in the code.
- Floating point is left out. `Math.floor(n * (i / 10))` is exact integer `n*i/10`. NaN values and `toFixed(2)` are not modelled.
- The enumeration order of integer-like object keys is not modelled. `RenderingIgnoresOrder` shows that the order does not affect what is drawn from the values.
- Some response shapes are merged. A missing `values` list is treated like an empty one. A missing `value` key is treated like null. A malformed KPI group response is one failure.
- `KpiSearch.ToLower`: lowers ASCII and Latin-1 letters only, not all of Unicode, because the KPI titles are Swedish.
- `KpiSearch.SearchKpis`: requires page >= 1, because Python's negative-slice behaviour for smaller pages is not modelled. A non-numeric page is not modelled either.
- `Sequences.SortByKey`: does not state stability (equal years keep their order), though insertion by adjacent swaps keeps it.
