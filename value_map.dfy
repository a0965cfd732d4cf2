/** The value map `currentKpiData` of the map page: municipality id to the
    total ("T") value of the selected KPI for the selected year, rebuilt from
    scratch from every /municipality_data response. */
module MunicipalityValues {
  import opened Wrappers

  type MunicipalityId = string

  /** One stratified value of a record; gender "T" is the total. */
  datatype GenderValue = GenderValue(gender: string, value: Option<real>)

  /** One element of the /municipality_data response. A record without a
      `values` list has an empty `values` here: the code skips both alike. */
  datatype MunicipalityRecord = MunicipalityRecord(municipality: MunicipalityId, values: seq<GenderValue>)

  /** A JavaScript object keyed by municipality id, as its own properties in
      enumeration order. */
  datatype Entry = Entry(id: MunicipalityId, value: real)
  type ValueMap = seq<Entry>

  /** No property appears twice. */
  predicate DistinctIds(m: ValueMap) {
    forall i, j :: 0 <= i < j < |m| ==> m[i].id != m[j].id
  }

  /** `obj[id]`: the value stored under `id`, or None (undefined). */
  function Lookup(m: ValueMap, id: MunicipalityId): (r: Option<real>)
    ensures r.None? <==> forall k :: 0 <= k < |m| ==> m[k].id != id
    ensures r.Some? ==> exists k :: 0 <= k < |m| && m[k] == Entry(id, r.value)
  {
    if |m| == 0 then None
    else if m[0].id == id then Some(m[0].value)
    else
      var r := Lookup(m[1..], id);
      assert forall k :: 0 < k < |m| ==> m[k] == m[1..][k - 1];
      r
  }

  /** `obj[id] = v`: overwrites in place when `id` is present, appends otherwise. */
  function Put(m: ValueMap, id: MunicipalityId, v: real): (r: ValueMap)
    requires DistinctIds(m)
    ensures DistinctIds(r)
    ensures Lookup(r, id) == Some(v)
    ensures forall other :: other != id ==> Lookup(r, other) == Lookup(m, other)
    ensures |r| == if Lookup(m, id).Some? then |m| else |m| + 1
  {
    if |m| == 0 then [Entry(id, v)]
    else if m[0].id == id then
      var r := [Entry(id, v)] + m[1..];
      assert forall k :: 0 < k < |r| ==> r[k] == m[k];
      r
    else
      var rest := Put(m[1..], id, v);
      assert Lookup(m[1..], m[0].id).None?;
      assert Lookup(rest, m[0].id).None?;
      var r := [m[0]] + rest;
      assert forall k :: 0 < k < |r| ==> r[k] == rest[k - 1];
      r
  }

  /** `Object.values(obj)`, in enumeration order. */
  function ValuesOf(m: ValueMap): (vs: seq<real>)
    ensures |vs| == |m|
  {
    seq(|m|, k requires 0 <= k < |m| => m[k].value)
  }

  /** The values of an object are exactly what its properties look up to:
      the k-th value is what the k-th property's id looks up to, and every
      id that looks up to something looks up to one of the values. */
  lemma ValuesAreLookups(m: ValueMap)
    requires DistinctIds(m)
    ensures forall k :: 0 <= k < |m| ==> Lookup(m, m[k].id) == Some(ValuesOf(m)[k])
    ensures forall id :: Lookup(m, id).Some? ==> Lookup(m, id).value in ValuesOf(m)
  {
    forall k | 0 <= k < |m|
      ensures Lookup(m, m[k].id) == Some(ValuesOf(m)[k])
    {
      var r := Lookup(m, m[k].id);
      var j :| 0 <= j < |m| && m[j] == Entry(m[k].id, r.value);
      assert j == k;
    }
    forall id | Lookup(m, id).Some?
      ensures Lookup(m, id).value in ValuesOf(m)
    {
      var k :| 0 <= k < |m| && m[k] == Entry(id, Lookup(m, id).value);
      assert ValuesOf(m)[k] == m[k].value;
    }
  }

  /** `values.find(v => v.gender === 'T')`: the first entry with gender "T". */
  function FindTotal(vs: seq<GenderValue>): (r: Option<GenderValue>)
    ensures r.None? <==> forall k :: 0 <= k < |vs| ==> vs[k].gender != "T"
    ensures r.Some? ==> exists k :: 0 <= k < |vs| && vs[k] == r.value && vs[k].gender == "T" &&
                                    forall j :: 0 <= j < k ==> vs[j].gender != "T"
  {
    if |vs| == 0 then None
    else if vs[0].gender == "T" then Some(vs[0])
    else
      var r := FindTotal(vs[1..]);
      assert forall k :: 0 < k < |vs| ==> vs[k] == vs[1..][k - 1];
      r
  }

  /** The value a record contributes: the value of its first "T" entry,
      when that entry exists and its value is not null. A null first "T"
      value makes the record contribute nothing, whatever follows it. */
  function TotalOf(d: MunicipalityRecord): Option<real> {
    if |d.values| > 0 then
      match FindTotal(d.values)
      case Some(t) => t.value
      case None => None
    else None
  }

  /** A record without a "T" entry contributes nothing; otherwise it
      contributes exactly the (possibly null) value of its first "T" entry. */
  lemma TotalOfFirstT(d: MunicipalityRecord)
    ensures (forall k :: 0 <= k < |d.values| ==> d.values[k].gender != "T") ==> TotalOf(d).None?
    ensures forall k :: 0 <= k < |d.values| && d.values[k].gender == "T" &&
                        (forall j :: 0 <= j < k ==> d.values[j].gender != "T")
                        ==> TotalOf(d) == d.values[k].value
  {
  }

  /** The map the response handler builds: start empty, then store the
      total of every record that has one, in response order. */
  function ValueMapOf(data: seq<MunicipalityRecord>): (m: ValueMap)
    ensures DistinctIds(m)
  {
    if |data| == 0 then []
    else
      var m := ValueMapOf(data[..|data| - 1]);
      var d := data[|data| - 1];
      match TotalOf(d)
      case Some(v) => Put(m, d.municipality, v)
      case None => m
  }

  /** `d` is a record for `id` that contributes a total. */
  predicate ContributesTo(d: MunicipalityRecord, id: MunicipalityId) {
    d.municipality == id && TotalOf(d).Some?
  }

  /** Reference definition: the total of the LAST record for `id` that has
      one, or None when no record for `id` has a total. */
  function LastTotal(data: seq<MunicipalityRecord>, id: MunicipalityId): Option<real>
  {
    if |data| == 0 then None
    else if ContributesTo(data[|data| - 1], id) then TotalOf(data[|data| - 1])
    else LastTotal(data[..|data| - 1], id)
  }

  /** A municipality has no total iff no record for it contributes one. */
  lemma {:induction false} LastTotalAbsent(data: seq<MunicipalityRecord>, id: MunicipalityId)
    ensures LastTotal(data, id).None? <==> forall k :: 0 <= k < |data| ==> !ContributesTo(data[k], id)
  {
    if |data| > 0 {
      var n := |data| - 1;
      LastTotalAbsent(data[..n], id);
      assert forall k :: 0 <= k < n ==> data[k] == data[..n][k];
    }
  }

  /** A municipality's total is that of the last record for it that
      contributes one; `k` is that record's position. */
  lemma {:induction false} LastTotalIsLast(data: seq<MunicipalityRecord>, id: MunicipalityId) returns (k: nat)
    requires LastTotal(data, id).Some?
    ensures k < |data| && ContributesTo(data[k], id) && TotalOf(data[k]) == LastTotal(data, id)
    ensures forall j :: k < j < |data| ==> !ContributesTo(data[j], id)
  {
    var n := |data| - 1;
    if ContributesTo(data[n], id) {
      k := n;
    } else {
      var init := data[..n];
      k := LastTotalIsLast(init, id);
      assert forall j :: k < j < n ==> data[j] == init[j];
    }
  }

  /** The map holds exactly the last total of every municipality. */
  lemma {:induction false} ValueMapLookup(data: seq<MunicipalityRecord>, id: MunicipalityId)
    ensures Lookup(ValueMapOf(data), id) == LastTotal(data, id)
  {
    if |data| > 0 {
      ValueMapLookup(data[..|data| - 1], id);
    }
  }

  /** The `forEach` of the /municipality_data response handler. */
  method BuildValueMap(data: seq<MunicipalityRecord>) returns (currentKpiData: ValueMap)
    ensures currentKpiData == ValueMapOf(data)
    ensures DistinctIds(currentKpiData)
    ensures forall id :: Lookup(currentKpiData, id) == LastTotal(data, id)
  {
    currentKpiData := [];
    var i := 0;
    while i < |data|
      invariant 0 <= i <= |data|
      invariant currentKpiData == ValueMapOf(data[..i])
    {
      var d := data[i];
      if |d.values| > 0 {
        var totalValue := FindTotal(d.values);
        if totalValue.Some? && totalValue.value.value.Some? {
          currentKpiData := Put(currentKpiData, d.municipality, totalValue.value.value.value);
        }
      }
      assert data[..i + 1][..i] == data[..i];
      i := i + 1;
    }
    assert data[..|data|] == data;
    forall id
      ensures Lookup(currentKpiData, id) == LastTotal(data, id)
    {
      ValueMapLookup(data, id);
    }
  }
}
