/** The back end's /search_kpis: hide the "Enhets…" KPIs, match the term
    case-insensitively against title and group title, and serve the matches
    fifty per page with a `has_more` flag. */
module KpiSearch {
  import opened Sequences
  import opened KpiCatalog

  const PerPage: nat := 50

  /** Prefix of the titles that are never offered. */
  const HiddenPrefix: string := "Enhets"

  /** An upper-case ASCII or Latin-1 letter (Latin-1 covers the Swedish
      Å, Ä and Ö); the multiplication sign U+00D7 is not a letter. */
  predicate IsUpper(c: char) {
    'A' <= c <= 'Z' || ('\U{C0}' <= c <= '\U{DE}' && c != '\U{D7}')
  }

  /** Python's `str.lower` on one character, for ASCII and Latin-1 letters:
      each upper-case letter's lower-case partner is 32 code points on. */
  function LowerChar(c: char): char {
    if IsUpper(c) then (c as int + 32) as char else c
  }

  /** `s.lower()`: no upper-case letter is left, every upper-case letter
      becomes its lower-case partner, and every other character is kept. */
  function ToLower(s: string): (r: string)
    ensures |r| == |s|
    ensures forall i :: 0 <= i < |r| ==> !IsUpper(r[i])
    ensures forall i :: 0 <= i < |s| && !IsUpper(s[i]) ==> r[i] == s[i]
    ensures forall i :: 0 <= i < |s| && IsUpper(s[i]) ==> r[i] as int == s[i] as int + 32
  {
    seq(|s|, i requires 0 <= i < |s| => LowerChar(s[i]))
  }

  /** Lowering is idempotent, so a lowered term matches like its original. */
  lemma ToLowerIdempotent(s: string)
    ensures ToLower(ToLower(s)) == ToLower(s)
  {
  }

  /** `s.startswith(prefix)`. */
  predicate StartsWith(s: string, prefix: string) {
    |prefix| <= |s| && s[..|prefix|] == prefix
  }

  /** `t` occurs in `s` at position `i`. */
  predicate OccursAt(s: string, t: string, i: nat) {
    i + |t| <= |s| && s[i..i + |t|] == t
  }

  /** Python's `t in s` on strings: `t` occurs in `s` as a substring. */
  predicate Contains(s: string, t: string) {
    exists i: nat | i <= |s| :: OccursAt(s, t, i)
  }

  /** The empty string occurs in every string. */
  lemma ContainsEmpty(s: string)
    ensures Contains(s, "")
  {
    assert OccursAt(s, "", 0);
  }

  /** A KPI offered to searches. */
  predicate Visible(k: Kpi) {
    !StartsWith(k.title, HiddenPrefix)
  }

  /** The lowered `term` occurs in the lowered title or group title. */
  predicate MatchesTerm(k: Kpi, term: string) {
    Contains(ToLower(k.title), term) || Contains(ToLower(k.groupTitle), term)
  }

  /** `matching_kpis` for the raw request term: visible KPIs of the
      catalogue, never more than it holds, each matching the term when the
      term is not empty. */
  function MatchList(allKpis: seq<Kpi>, term: string): (r: seq<Kpi>)
    ensures |r| <= |allKpis|
    ensures forall k :: k in r ==> k in allKpis && Visible(k)
    ensures |term| > 0 ==> forall k :: k in r ==> MatchesTerm(k, ToLower(term))
  {
    var searchTerm := ToLower(term);
    var filtered := Filter(allKpis, Visible);
    if |searchTerm| > 0 then Filter(filtered, (k: Kpi) => MatchesTerm(k, searchTerm)) else filtered
  }

  /** The matches are exactly the visible KPIs whose title or group title
      contains the term, ignoring case, in catalogue order; the empty term
      matches every visible KPI. */
  lemma MatchListSpec(allKpis: seq<Kpi>, term: string)
    ensures MatchList(allKpis, term) ==
            Filter(allKpis, (k: Kpi) => Visible(k) && MatchesTerm(k, ToLower(term)))
    ensures forall k :: k in MatchList(allKpis, term) <==>
            k in allKpis && Visible(k) && MatchesTerm(k, ToLower(term))
    ensures |term| == 0 ==> MatchList(allKpis, term) == Filter(allKpis, Visible)
  {
    var searchTerm := ToLower(term);
    var both := (k: Kpi) => Visible(k) && MatchesTerm(k, searchTerm);
    var matches := (k: Kpi) => MatchesTerm(k, searchTerm);
    FilterFilter(allKpis, Visible, matches, both);
    if |searchTerm| == 0 {
      forall k: Kpi
        ensures MatchesTerm(k, searchTerm)
      {
        ContainsEmpty(ToLower(k.title));
      }
      FilterSame(Filter(allKpis, Visible), matches);
    }
  }

  /** Filtering by a condition every element meets changes nothing. */
  lemma {:induction false} FilterSame<T(!new)>(s: seq<T>, p: T -> bool)
    requires forall x :: p(x)
    ensures Filter(s, p) == s
  {
    if |s| > 0 {
      FilterSame(s[1..], p);
      assert s == [s[0]] + s[1..];
    }
  }

  /** Searching ignores the case of the term. */
  lemma SearchIgnoresCase(allKpis: seq<Kpi>, term: string)
    ensures MatchList(allKpis, term) == MatchList(allKpis, ToLower(term))
  {
    ToLowerIdempotent(term);
  }

  /** Python's `s[start:end]` for 0 <= start <= end: the elements from
      position `start` on, stopping before `end` or at the end of `s`. */
  function PySlice<T>(s: seq<T>, start: nat, end: nat): (r: seq<T>)
    requires start <= end
    ensures |r| == Min(end, |s|) - Min(start, |s|)
    ensures forall i :: 0 <= i < |r| ==> start + i < |s| && r[i] == s[start + i]
  {
    if start >= |s| then [] else s[start..if end <= |s| then end else |s|]
  }

  /** The JSON body of /search_kpis. */
  datatype SearchResponse = SearchResponse(results: seq<Kpi>, hasMore: bool)

  /** /search_kpis?term=`term`&page=`page`. */
  function SearchKpis(allKpis: seq<Kpi>, term: string, page: int): (r: SearchResponse)
    requires page >= 1
    ensures |r.results| <= PerPage
    ensures forall k :: k in r.results ==> k in MatchList(allKpis, term)
    ensures r.hasMore <==> page * PerPage < |MatchList(allKpis, term)|
    ensures page * PerPage <= |MatchList(allKpis, term)| ==>
              r.results == MatchList(allKpis, term)[(page - 1) * PerPage .. page * PerPage]
  {
    var matching := MatchList(allKpis, term);
    var startIdx := (page - 1) * PerPage;
    var endIdx := startIdx + PerPage;
    SearchResponse(PySlice(matching, startIdx, endIdx), endIdx < |matching|)
  }

  /** No search result is hidden, and every result contains the term. */
  lemma SearchResultsVisible(allKpis: seq<Kpi>, term: string, page: int)
    requires page >= 1
    ensures forall k :: k in SearchKpis(allKpis, term, page).results ==>
              k in allKpis && !StartsWith(k.title, "Enhets") && MatchesTerm(k, ToLower(term))
  {
    MatchListSpec(allKpis, term);
  }

  /** The results of pages 1..n, one after the other. */
  function ResultsThrough(allKpis: seq<Kpi>, term: string, n: nat): seq<Kpi> {
    if n == 0 then [] else ResultsThrough(allKpis, term, n - 1) + SearchKpis(allKpis, term, n).results
  }

  /** The smaller of two numbers. */
  function Min(a: nat, b: nat): nat {
    if a <= b then a else b
  }

  /** Page `page` is the slice of the match list between the page's two
      bounds, each capped at the number of matches. */
  lemma PageIsSlice(allKpis: seq<Kpi>, term: string, page: nat, start: nat)
    requires page >= 1 && start == (page - 1) * PerPage
    ensures var m := MatchList(allKpis, term);
            SearchKpis(allKpis, term, page).results == m[Min(start, |m|)..Min(start + PerPage, |m|)]
  {
    assert page * PerPage == start + PerPage;
  }

  /** Pages are adjacent slices of the match list: pages 1..n together are
      its first 50n matches (all of them when fewer). */
  lemma {:induction false} PagesArePrefix(allKpis: seq<Kpi>, term: string, n: nat, end: nat)
    requires end == n * PerPage
    ensures var m := MatchList(allKpis, term);
            ResultsThrough(allKpis, term, n) == m[..Min(end, |m|)]
  {
    var m := MatchList(allKpis, term);
    if n > 0 {
      var start := end - PerPage;
      assert start == (n - 1) * PerPage;
      PagesArePrefix(allKpis, term, n - 1, start);
      PageIsSlice(allKpis, term, n, start);
      assert m[..Min(start, |m|)] + m[Min(start, |m|)..Min(end, |m|)] == m[..Min(end, |m|)];
    }
  }

  /** Fetching pages 1, 2, ... until `has_more` is false yields every
      match exactly once, in order. */
  lemma AllPagesYieldAllMatches(allKpis: seq<Kpi>, term: string, n: nat)
    requires n >= 1 && !SearchKpis(allKpis, term, n).hasMore
    ensures ResultsThrough(allKpis, term, n) == MatchList(allKpis, term)
  {
    PagesArePrefix(allKpis, term, n, n * PerPage);
  }
}
