/** The end of the stage-1 build: keep the groups with a positive unit
    total, finalise each one's centroid, sort for display and compute the
    summary figures. */
module Assembly {
  import opened Base
  import opened Status
  import opened Sorting
  import opened Rollup

  /** One project of the stage-1 output, its accumulator without the
      internal coordinate sums. */
  datatype Development = Development(
    projectId: string,
    projectName: string,
    address: string,
    neighborhood: string,
    developer: Option<string>,
    status: Lifecycle,
    unitsTotal: int,
    permitCount: nat,
    valuationTotal: real,
    firstDateReceived: string,
    lastDateIssued: string,
    lastFinalDate: string,
    location: Option<Location>,
    permits: seq<PermitDetail>,
    lastUpdated: string)

  /** The stage-1 summary figures. */
  datatype Kpis = Kpis(
    projectsTracked: nat,
    pipelineUnits: int,
    deliveredUnits: int,
    underConstructionUnits: int,
    updatedAt: string)

  /** The accumulator with its centroid set from the coordinate sums. */
  function Finalize(g: Group): Development
  {
    Development(
      g.projectId, g.projectName, g.address, g.neighborhood, g.developer, g.status,
      g.unitsTotal, g.permitCount, g.valuationTotal,
      g.firstDateReceived, g.lastDateIssued, g.lastFinalDate,
      if g.coordCount > 0
      then Some(Location(g.lonSum / (g.coordCount as real), g.latSum / (g.coordCount as real)))
      else None,
      g.permits, g.lastUpdated)
  }

  /** The groups with a positive unit total, in the dictionary's order. */
  function Surviving(order: seq<string>, groups: map<string, Group>): (kept: seq<Group>)
    requires forall k :: k in order ==> k in groups
    ensures |kept| <= |order|
  {
    if order == [] then []
    else
      var k := order[|order| - 1];
      Surviving(order[..|order| - 1], groups) + (if groups[k].unitsTotal > 0 then [groups[k]] else [])
  }

  /** The display sort key (status label, units_total, permit_count). */
  function DisplayKey(d: Development): SortKey
  {
    SortKey(Label(d.status), d.unitsTotal, d.permitCount)
  }

  function ProjectIdOf(d: Development): string { d.projectId }

  function Pipeline(d: Development): int { if d.unitsTotal > 0 then d.unitsTotal else 0 }

  function DeliveredPart(d: Development): int { if d.status == Delivered then Pipeline(d) else 0 }

  function UnderConstructionPart(d: Development): int { if d.status == UnderConstruction then Pipeline(d) else 0 }

  /** The KPI block of stage 1; the delivered and under-construction totals
      never exceed the pipeline total. */
  function Summarize(devs: seq<Development>, fetchedAt: string): (k: Kpis)
    ensures k.projectsTracked == |devs|
    ensures 0 <= k.deliveredUnits && 0 <= k.underConstructionUnits
    ensures k.deliveredUnits + k.underConstructionUnits <= k.pipelineUnits
  {
    SumIntBound(devs, DeliveredPart, UnderConstructionPart, Pipeline);
    SumIntNonNegative(devs, DeliveredPart);
    SumIntNonNegative(devs, UnderConstructionPart);
    Kpis(|devs|, SumInt(devs, Pipeline), SumInt(devs, DeliveredPart), SumInt(devs, UnderConstructionPart), fetchedAt)
  }

  /** The groups kept for output, finalised one by one. */
  method FinalizeAll(kept: seq<Group>) returns (devs: seq<Development>)
    ensures |devs| == |kept|
    ensures forall i :: 0 <= i < |kept| ==> devs[i] == Finalize(kept[i])
  {
    devs := [];
    var i := 0;
    while i < |kept|
      invariant 0 <= i <= |kept|
      invariant |devs| == i
      invariant forall j :: 0 <= j < i ==> devs[j] == Finalize(kept[j])
    {
      devs := devs + [Finalize(kept[i])];
      i := i + 1;
    }
  }

  /** Finalize applied to every element of kept. */
  function FinalizeSeq(kept: seq<Group>): (devs: seq<Development>)
    ensures |devs| == |kept|
    ensures forall i :: 0 <= i < |kept| ==> devs[i] == Finalize(kept[i])
  {
    if kept == [] then [] else [Finalize(kept[0])] + FinalizeSeq(kept[1..])
  }

  /** The stage-1 developments: the surviving groups, finalised, in display order. */
  function Developments(features: seq<Feature>, today: string): seq<Development>
  {
    var gr := Fold(Keyed(features), today);
    FoldKeys(Keyed(features), today);
    SortDesc(FinalizeSeq(Surviving(gr.order, gr.groups)), DisplayKey)
  }

  /** build() from the fetched features to the sorted developments and their KPIs. */
  method Build(features: seq<Feature>, today: string, fetchedAt: string)
    returns (devs: seq<Development>, kpis: Kpis)
    ensures devs == Developments(features, today)
    ensures SortedDesc(devs, DisplayKey)
    ensures kpis == Summarize(devs, fetchedAt)
    ensures kpis.projectsTracked == |devs|
    ensures kpis.deliveredUnits + kpis.underConstructionUnits <= kpis.pipelineUnits
  {
    var order, grouped := GroupPermits(features, today);
    FoldKeys(Keyed(features), today);
    var kept := Surviving(order, grouped);
    var finalized := FinalizeAll(kept);
    assert finalized == FinalizeSeq(kept);
    devs := SortDesc(finalized, DisplayKey);
    SortDescSorted(finalized, DisplayKey);
    kpis := Summarize(devs, fetchedAt);
  }

  /** The kept groups are exactly the positive ones, each key's once. */
  lemma {:induction false} SurvivingExact(order: seq<string>, groups: map<string, Group>)
    requires forall k :: k in order ==> k in groups
    requires NoDuplicates(order)
    requires forall k :: k in groups ==> groups[k].projectId == k
    ensures forall g :: g in Surviving(order, groups) <==>
      g.unitsTotal > 0 && exists k :: k in order && groups[k] == g
    ensures forall i, j :: 0 <= i < j < |Surviving(order, groups)| ==>
      Surviving(order, groups)[i].projectId != Surviving(order, groups)[j].projectId
  {
    if order != [] {
      var init, k := order[..|order| - 1], order[|order| - 1];
      assert forall x :: x in order <==> x in init || x == k;
      SurvivingExact(init, groups);
      var before := Surviving(init, groups);
      forall i | 0 <= i < |before| ensures before[i].projectId != k {
        assert before[i] in before;
        var k' :| k' in init && groups[k'] == before[i];
        var m :| 0 <= m < |init| && init[m] == k';
        assert order[m] == k';
      }
    }
  }

  /** Every dictionary entry's project_id is its key. */
  lemma FoldProjectIds(ps: seq<Permit>, today: string)
    ensures forall k :: k in Fold(ps, today).groups ==> Fold(ps, today).groups[k].projectId == k
  {
    FoldGroups(ps, today);
    forall k | k in Fold(ps, today).groups ensures Fold(ps, today).groups[k].projectId == k {
      GroupIdentity(Members(ps, k), today);
    }
  }

  /** The output of stage 1 holds, in some order, exactly the finalised
      groups whose unit total is positive, and no project twice. */
  lemma OutputExact(features: seq<Feature>, today: string)
    ensures var gr := Fold(Keyed(features), today);
      forall d :: d in Developments(features, today) <==>
        exists k :: k in gr.groups && gr.groups[k].unitsTotal > 0 && d == Finalize(gr.groups[k])
    ensures NoDuplicates(Developments(features, today))
    ensures forall i, j :: 0 <= i < j < |Developments(features, today)| ==>
      Developments(features, today)[i].projectId != Developments(features, today)[j].projectId
  {
    var ps := Keyed(features);
    var gr := Fold(ps, today);
    FoldKeys(ps, today);
    FoldProjectIds(ps, today);
    SurvivingExact(gr.order, gr.groups);
    var kept := Surviving(gr.order, gr.groups);
    var fin := FinalizeSeq(kept);
    var devs := Developments(features, today);
    assert multiset(devs) == multiset(fin);
    PermutedSurvivors(gr.order, gr.groups, devs);
    DistinctIds(fin);
    DistinctPermutation(fin, devs);
    DistinctKeysPermutation(fin, devs, ProjectIdOf);
  }

  /** A permutation of the finalised survivors holds exactly the finalised
      positive groups of the dictionary. */
  lemma PermutedSurvivors(order: seq<string>, groups: map<string, Group>, devs: seq<Development>)
    requires forall k :: k in order ==> k in groups
    requires (set k | k in order) == groups.Keys
    requires forall g :: g in Surviving(order, groups) <==>
      g.unitsTotal > 0 && exists k :: k in order && groups[k] == g
    requires multiset(devs) == multiset(FinalizeSeq(Surviving(order, groups)))
    ensures forall d :: d in devs <==>
      exists k :: k in groups && groups[k].unitsTotal > 0 && d == Finalize(groups[k])
  {
    forall d | d in devs
      ensures exists k :: k in groups && groups[k].unitsTotal > 0 && d == Finalize(groups[k])
    {
      SurvivorOfOutput(order, groups, devs, d);
    }
    forall k | k in groups && groups[k].unitsTotal > 0 ensures Finalize(groups[k]) in devs {
      OutputOfSurvivor(order, groups, devs, k);
    }
  }

  lemma SurvivorOfOutput(order: seq<string>, groups: map<string, Group>, devs: seq<Development>, d: Development)
    requires forall k :: k in order ==> k in groups
    requires forall g :: g in Surviving(order, groups) ==>
      g.unitsTotal > 0 && exists k :: k in order && groups[k] == g
    requires multiset(devs) == multiset(FinalizeSeq(Surviving(order, groups)))
    requires d in devs
    ensures exists k :: k in groups && groups[k].unitsTotal > 0 && d == Finalize(groups[k])
  {
    var kept := Surviving(order, groups);
    var fin := FinalizeSeq(kept);
    assert d in multiset(fin);
    var i :| 0 <= i < |fin| && fin[i] == d;
    assert kept[i] in kept;
  }

  lemma OutputOfSurvivor(order: seq<string>, groups: map<string, Group>, devs: seq<Development>, k: string)
    requires forall k :: k in order ==> k in groups
    requires (set k | k in order) == groups.Keys
    requires forall g :: g in Surviving(order, groups) <==>
      g.unitsTotal > 0 && exists k :: k in order && groups[k] == g
    requires multiset(devs) == multiset(FinalizeSeq(Surviving(order, groups)))
    requires k in groups && groups[k].unitsTotal > 0
    ensures Finalize(groups[k]) in devs
  {
    var kept := Surviving(order, groups);
    var fin := FinalizeSeq(kept);
    assert k in (set x | x in order);
    assert groups[k] in kept;
    var i :| 0 <= i < |kept| && kept[i] == groups[k];
    assert fin[i] == Finalize(groups[k]);
    assert Finalize(groups[k]) in multiset(devs);
  }

  /** A finalised project has a location exactly when one of its permits
      had numeric coordinates, and the location is the mean of those
      coordinates. */
  lemma LocationOfProject(ms: seq<Permit>, today: string)
    requires ms != []
    ensures var d := Finalize(GroupFold(ms, today));
      && (d.location.Some? <==> exists i :: 0 <= i < |ms| && ms[i].coord.Some?)
      && (SumInt(ms, CoordOf) > 0 ==>
            d.location == Some(Location(SumReal(ms, LongitudeOf) / (SumInt(ms, CoordOf) as real),
                                        SumReal(ms, LatitudeOf) / (SumInt(ms, CoordOf) as real))))
  {
    GroupCounts(ms, today);
    CoordCountPositive(ms);
  }

  /** Some permit has coordinates exactly when the coordinate count is positive. */
  lemma {:induction false} CoordCountPositive(ms: seq<Permit>)
    ensures 0 <= SumInt(ms, CoordOf)
    ensures 0 < SumInt(ms, CoordOf) <==> exists i :: 0 <= i < |ms| && ms[i].coord.Some?
  {
    if ms != [] {
      var init := ms[..|ms| - 1];
      CoordCountPositive(init);
      if exists i :: 0 <= i < |init| && init[i].coord.Some? {
        var i :| 0 <= i < |init| && init[i].coord.Some?;
        assert ms[i] == init[i];
      }
      if exists i :: 0 <= i < |ms| && ms[i].coord.Some? {
        var i :| 0 <= i < |ms| && ms[i].coord.Some?;
        if i < |init| {
          assert init[i] == ms[i];
        }
      }
    }
  }

  /** Distinct project ids make distinct developments. */
  lemma DistinctIds(s: seq<Development>)
    requires forall i, j :: 0 <= i < j < |s| ==> s[i].projectId != s[j].projectId
    ensures NoDuplicates(s)
  {
  }
}
