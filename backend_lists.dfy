/** Small list endpoints of the back end: the offered years and the
    municipality filters. */
module BackendLists {
  import opened Sequences

  /** /kpi_data: `range(current_year, current_year - 6, -1)`, the current
      year and the five before it, newest first. Year strings are decimal
      renderings of these numbers. */
  function YearsList(currentYear: int): (years: seq<int>)
    ensures |years| == 6
    ensures years[0] == currentYear && years[5] == currentYear - 5
    ensures forall i, j :: 0 <= i < j < |years| ==> years[i] > years[j]
    ensures forall y :: y in years <==> currentYear - 5 <= y <= currentYear
  {
    var years := seq(6, i requires 0 <= i < 6 => currentYear - i);
    assert forall k :: 0 <= k < 6 ==> years[k] == currentYear - k;
    assert forall y :: currentYear - 5 <= y <= currentYear ==> y in years by {
      forall y | currentYear - 5 <= y <= currentYear
        ensures y in years
      {
        assert years[currentYear - y] == y;
      }
    }
    years
  }

  /** An entry of static/data/municipality_id.json; `kind` is its `type`
      ("K" for a municipality, "L" for a region). */
  datatype MunicipalityInfo = MunicipalityInfo(id: string, title: string, kind: string)

  predicate IsMunicipality(m: MunicipalityInfo) {
    m.kind == "K"
  }

  /** /municipality_ids: the entries of type "K", in file order. */
  function KMunicipalities(entries: seq<MunicipalityInfo>): (ks: seq<MunicipalityInfo>)
    ensures forall m :: m in ks <==> m in entries && m.kind == "K"
  {
    Filter(entries, IsMunicipality)
  }

  /** The ids /municipality_data requests: `[m['id'] for m in ... if m['type'] == 'K']`. */
  function KMunicipalityIds(entries: seq<MunicipalityInfo>): (ids: seq<string>)
    ensures |ids| <= |entries|
    ensures forall id :: id in ids <==> exists m :: m in entries && m.kind == "K" && m.id == id
  {
    if |entries| == 0 then []
    else (if entries[0].kind == "K" then [entries[0].id] else []) + KMunicipalityIds(entries[1..])
  }

  /** The requested ids are exactly the ids of the listed municipalities,
      in the same order. */
  lemma {:induction false} KMunicipalityIdsMatch(entries: seq<MunicipalityInfo>)
    ensures var ks := KMunicipalities(entries);
            KMunicipalityIds(entries) == seq(|ks|, i requires 0 <= i < |ks| => ks[i].id)
  {
    if |entries| > 0 {
      KMunicipalityIdsMatch(entries[1..]);
    }
  }
}
