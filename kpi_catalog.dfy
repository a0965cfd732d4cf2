/** The KPI catalogue of the back end: the groups returned by the Kolada
    /kpi_groups endpoint, flattened into one KPI per group member, and the
    process-wide cache that keeps the first successful result. */
module KpiCatalog {
  import opened Wrappers

  datatype Member = Member(memberId: string, memberTitle: string)

  /** A KPI group; `members` is None when the group has no `members` key. */
  datatype Group = Group(id: string, title: string, members: Option<seq<Member>>)

  /** A flattened KPI: the member's id and title with its group's title and id. */
  datatype Kpi = Kpi(id: string, title: string, groupTitle: string, groupId: string)

  /** `group.get('members', [])`. */
  function MembersOf(g: Group): seq<Member> {
    g.members.GetOr([])
  }

  /** The catalogue entry for member `m` of group `g`. */
  function KpiOf(g: Group, m: Member): Kpi {
    Kpi(m.memberId, m.memberTitle, g.title, g.id)
  }

  /** The entries group `g` contributes, in member order. */
  function GroupKpis(g: Group): (ks: seq<Kpi>)
    ensures |ks| == |MembersOf(g)|
    ensures forall j :: 0 <= j < |ks| ==> ks[j] == KpiOf(g, MembersOf(g)[j])
  {
    seq(|MembersOf(g)|, j requires 0 <= j < |MembersOf(g)| => KpiOf(g, MembersOf(g)[j]))
  }

  /** Number of members over all groups. */
  function MemberCount(groups: seq<Group>): nat {
    if |groups| == 0 then 0
    else MemberCount(groups[..|groups| - 1]) + |MembersOf(groups[|groups| - 1])|
  }

  /** The flattened catalogue: the groups' entries one after the other,
      one entry per member, none for a group without members. */
  function Flattened(groups: seq<Group>): (ks: seq<Kpi>)
    ensures |ks| == MemberCount(groups)
  {
    if |groups| == 0 then []
    else Flattened(groups[..|groups| - 1]) + GroupKpis(groups[|groups| - 1])
  }

  /** The catalogue of a single group is its entries in member order. */
  lemma FlattenedSingle(g: Group)
    ensures Flattened([g]) == GroupKpis(g)
  {
    assert [g][..0] == [];
  }

  /** Group-then-member order: the catalogue of two runs of groups is the
      catalogue of the first followed by that of the second. */
  lemma {:induction false} FlattenedAppend(a: seq<Group>, b: seq<Group>)
    ensures Flattened(a + b) == Flattened(a) + Flattened(b)
  {
    if |b| > 0 {
      var n := |b| - 1;
      assert (a + b)[..|a + b| - 1] == a + b[..n];
      FlattenedAppend(a, b[..n]);
    } else {
      assert a + b == a;
    }
  }

  /** A KPI is in the catalogue iff it is the entry of some member of some
      group, carrying that group's own title and id. */
  lemma {:induction false} FlattenedMembership(groups: seq<Group>, k: Kpi)
    ensures k in Flattened(groups) <==>
            exists i, j :: 0 <= i < |groups| && 0 <= j < |MembersOf(groups[i])| && k == KpiOf(groups[i], MembersOf(groups[i])[j])
  {
    if |groups| > 0 {
      var n := |groups| - 1;
      var init, last := groups[..n], groups[n];
      assert Flattened(groups) == Flattened(init) + GroupKpis(last);
      FlattenedMembership(init, k);
      if k in GroupKpis(last) {
        var j :| 0 <= j < |GroupKpis(last)| && GroupKpis(last)[j] == k;
        assert k == KpiOf(groups[n], MembersOf(groups[n])[j]);
      } else if k in Flattened(init) {
        var i, j :| 0 <= i < |init| && 0 <= j < |MembersOf(init[i])| && k == KpiOf(init[i], MembersOf(init[i])[j]);
        assert init[i] == groups[i];
      }
    }
  }

  /** The nested loop of `fetch_all_kpis` that builds the catalogue. */
  method FlattenGroups(groups: seq<Group>) returns (allKpis: seq<Kpi>)
    ensures allKpis == Flattened(groups)
    ensures |allKpis| == MemberCount(groups)
  {
    allKpis := [];
    var i := 0;
    while i < |groups|
      invariant 0 <= i <= |groups|
      invariant allKpis == Flattened(groups[..i])
    {
      var group := groups[i];
      var members := MembersOf(group);
      ghost var before := allKpis;
      var j := 0;
      while j < |members|
        invariant 0 <= j <= |members|
        invariant allKpis == before + GroupKpis(group)[..j]
      {
        var member := members[j];
        allKpis := allKpis + [Kpi(member.memberId, member.memberTitle, group.title, group.id)];
        assert GroupKpis(group)[..j + 1] == GroupKpis(group)[..j] + [GroupKpis(group)[j]];
        j := j + 1;
      }
      assert groups[..i + 1][..i] == groups[..i];
      assert GroupKpis(group)[..j] == GroupKpis(group);
      i := i + 1;
    }
    assert groups[..|groups|] == groups;
  }

  /** What the Kolada /kpi_groups request yields: the groups, or a failure
      (network error, bad status, unexpected JSON). */
  datatype GroupsResponse = GroupsOk(groups: seq<Group>) | GroupsFailed

  /** The module-level `kpi_cache` dict. */
  class KpiCache {
    var groups: Option<seq<Kpi>>
    var lastUpdate: Option<string>

    constructor ()
      ensures groups == None && lastUpdate == None
    {
      groups := None;
      lastUpdate := None;
    }

    /** `fetch_all_kpis`. `response` stands for what the request would
        return and `now` for the clock; both are consulted only on a miss.
        `fetched` tells whether a request was made. */
    method FetchAllKpis(response: GroupsResponse, now: string) returns (kpis: seq<Kpi>, fetched: bool)
      modifies this
      ensures fetched <==> old(groups).None?
      ensures old(groups).Some? ==> kpis == old(groups).value && groups == old(groups) && lastUpdate == old(lastUpdate)
      ensures old(groups).None? && response.GroupsOk? ==>
                kpis == Flattened(response.groups) && groups == Some(kpis) && lastUpdate == Some(now)
      ensures old(groups).None? && response.GroupsFailed? ==>
                kpis == [] && groups == None && lastUpdate == old(lastUpdate)
    {
      if groups.Some? {
        return groups.value, false;
      }
      fetched := true;
      match response
      case GroupsOk(gs) =>
        var allKpis := FlattenGroups(gs);
        groups := Some(allKpis);
        lastUpdate := Some(now);
        kpis := allKpis;
      case GroupsFailed =>
        kpis := [];
    }
  }

  /** Two requests against a fresh cache: the second is served from the
      cache, without a request, exactly when the first one succeeded. */
  method TwoCalls(first: GroupsResponse, second: GroupsResponse, now1: string, now2: string)
    returns (a: seq<Kpi>, b: seq<Kpi>, requests: nat)
    ensures first.GroupsOk? ==> requests == 1 && a == Flattened(first.groups) && b == a
    ensures first.GroupsFailed? ==> requests == 2 && a == []
  {
    var cache := new KpiCache();
    var f1, f2;
    a, f1 := cache.FetchAllKpis(first, now1);
    b, f2 := cache.FetchAllKpis(second, now2);
    requests := (if f1 then 1 else 0) + (if f2 then 1 else 0);
  }
}
