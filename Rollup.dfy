/** The streaming fold of the stage-1 build: each permit feature is
    normalised, keyed by LOG_NUM, else ADDRESS, else PERMIT_NUM, and folded
    into a per-key accumulator held in an insertion-ordered dictionary. The
    accumulator counts permits, sums units, valuation and coordinates, keeps
    the most progressed status and the earliest / latest dates, and appends
    an audit record per permit. */
module Rollup {
  import opened Base
  import opened Text
  import opened Fields
  import opened Status

  /** A feature's geometry: x and y when they are numbers, None otherwise. */
  datatype Geometry = Geometry(x: Option<real>, y: Option<real>)

  datatype Feature = Feature(attributes: Attributes, geometry: Geometry)

  datatype Location = Location(longitude: real, latitude: real)

  /** The audit record kept for each permit of a project. */
  datatype PermitDetail = PermitDetail(
    permitNum: string,
    permitClass: Raw,
    units: int,
    dateReceived: string,
    dateIssued: string,
    finalDate: string,
    cancel: Raw)

  /** What the loop body reads off one keyed feature before folding it. */
  datatype Permit = Permit(
    key: string,
    address: string,
    neighborhood: string,
    developer: Option<string>,
    status: Lifecycle,
    units: int,
    valuation: real,
    dateReceived: string,
    dateIssued: string,
    finalDate: string,
    coord: Option<Location>,
    detail: PermitDetail)

  /** The per-project accumulator (the `_lon_sum`, `_lat_sum` and
      `_coord_count` entries are the internal ones). */
  datatype Group = Group(
    projectId: string,
    projectName: string,
    address: string,
    neighborhood: string,
    developer: Option<string>,
    status: Lifecycle,
    unitsTotal: int,
    permitCount: nat,
    valuationTotal: real,
    firstDateReceived: string,
    lastDateIssued: string,
    lastFinalDate: string,
    lonSum: real,
    latSum: real,
    coordCount: nat,
    permits: seq<PermitDetail>,
    lastUpdated: string)

  /** The `grouped` dictionary: its keys in insertion order, and its entries. */
  datatype Grouping = Grouping(order: seq<string>, groups: map<string, Group>)

  /** The rollup key. */
  function GroupKey(a: Attributes): Option<string>
  {
    var logNum := Strip(a.logNum);
    var address := Strip(a.address);
    var permitNum := Strip(a.permitNum);
    if logNum != "" then Some(logNum)
    else if address != "" then Some(address)
    else if permitNum != "" then Some(permitNum)
    else None
  }

  /** r is the first non-empty candidate, or None when all are empty. */
  predicate FirstNonEmpty(candidates: seq<string>, r: Option<string>)
  {
    match r
    case None => forall i :: 0 <= i < |candidates| ==> candidates[i] == ""
    case Some(v) =>
      exists i :: 0 <= i < |candidates| && candidates[i] == v && v != ""
        && forall j :: 0 <= j < i ==> candidates[j] == ""
  }

  /** The key is the first non-empty of trimmed LOG_NUM, ADDRESS, PERMIT_NUM;
      with all three blank there is no key. */
  lemma KeyPriority(a: Attributes)
    ensures FirstNonEmpty([Strip(a.logNum), Strip(a.address), Strip(a.permitNum)], GroupKey(a))
  {
    var c := [Strip(a.logNum), Strip(a.address), Strip(a.permitNum)];
    if Strip(a.logNum) != "" {
      assert c[0] == Strip(a.logNum);
    } else if Strip(a.address) != "" {
      assert c[1] == Strip(a.address);
    } else if Strip(a.permitNum) != "" {
      assert c[2] == Strip(a.permitNum);
    }
  }

  /** The fields of one feature the fold uses, or None for a feature without a key. */
  function Normalize(f: Feature): (r: Option<Permit>)
    ensures r.None? <==> GroupKey(f.attributes).None?
    ensures r.Some? ==> r.value.key != ""
    ensures r.Some? ==> (r.value.coord.Some? <==> f.geometry.x.Some? && f.geometry.y.Some?)
    ensures r.Some? ==> r.value.detail.units == r.value.units
    ensures r.Some? ==> r.value.key == GroupKey(f.attributes).value
    ensures r.Some? && r.value.coord.Some? ==>
      r.value.coord.value == Location(f.geometry.x.value, f.geometry.y.value)
    ensures r.Some? ==> && r.value.address == Strip(f.attributes.address)
                        && r.value.neighborhood == Strip(f.attributes.neighborhood)
                        && (r.value.developer.Some? <==> Strip(f.attributes.contractorName) != "")
                        && (r.value.developer.Some? ==> r.value.developer.value == Strip(f.attributes.contractorName))
    ensures r.Some? ==> r.value.status == InferStatus(f.attributes)
    ensures r.Some? ==> r.value.units == ParseInt(f.attributes.units, 0)
    ensures r.Some? ==> && r.value.dateReceived == DateText(f.attributes.dateReceived)
                        && r.value.dateIssued == DateText(f.attributes.dateIssued)
                        && r.value.finalDate == DateText(f.attributes.finalDate)
  {
    var a := f.attributes;
    match GroupKey(a)
    case None => None
    case Some(key) =>
      var address := Strip(a.address);
      var developer := Strip(a.contractorName);
      var units := ParseInt(a.units, 0);
      var received := DateText(a.dateReceived);
      var issued := DateText(a.dateIssued);
      var final := DateText(a.finalDate);
      var coord :=
        if f.geometry.x.Some? && f.geometry.y.Some?
        then Some(Location(f.geometry.x.value, f.geometry.y.value)) else None;
      Some(Permit(
        key, address, Strip(a.neighborhood),
        if developer != "" then Some(developer) else None,
        InferStatus(a), units, a.valuation, received, issued, final, coord,
        PermitDetail(Strip(a.permitNum), a.permitClass, units, received, issued, final, a.cancel)))
  }

  /** A new accumulator, before the first permit is added to it. */
  function NewGroup(p: Permit, today: string): Group
  {
    Group(
      p.key,
      if p.address != "" then p.address else "Residential project " + p.key,
      p.address, p.neighborhood, p.developer, p.status,
      0, 0, 0.0,
      p.dateReceived, p.dateIssued, p.finalDate,
      0.0, 0.0, 0, [], today)
  }

  /** The date kept as the earliest: d replaces cur when d is set and cur is
      unset or later. */
  function Earlier(d: string, cur: string): string
  {
    if d != "" && (cur == "" || Lt(d, cur)) then d else cur
  }

  /** The date kept as the latest. */
  function Later(d: string, cur: string): string
  {
    if d != "" && (cur == "" || Lt(cur, d)) then d else cur
  }

  /** One fold step: the in-place updates of the loop body. */
  function Absorb(g: Group, p: Permit): Group
  {
    g.(
      permitCount := g.permitCount + 1,
      unitsTotal := g.unitsTotal + p.units,
      valuationTotal := g.valuationTotal + p.valuation,
      lonSum := if p.coord.Some? then g.lonSum + p.coord.value.longitude else g.lonSum,
      latSum := if p.coord.Some? then g.latSum + p.coord.value.latitude else g.latSum,
      coordCount := if p.coord.Some? then g.coordCount + 1 else g.coordCount,
      status := if Rank(p.status) > Rank(g.status) then p.status else g.status,
      firstDateReceived := Earlier(p.dateReceived, g.firstDateReceived),
      lastDateIssued := Later(p.dateIssued, g.lastDateIssued),
      lastFinalDate := Later(p.finalDate, g.lastFinalDate),
      permits := g.permits + [p.detail])
  }

  /** ts_to_date's "" for a missing or zero timestamp is what keeps such a
      permit from moving a project's dates: absorbing it leaves the earliest
      received and the latest issued and final dates as they were, while a
      present date fills a date the project does not have yet. */
  lemma MissingDateNeutral(f: Feature, g: Group)
    requires Normalize(f).Some?
    ensures !Present(f.attributes.dateReceived) ==>
      Absorb(g, Normalize(f).value).firstDateReceived == g.firstDateReceived
    ensures !Present(f.attributes.dateIssued) ==>
      Absorb(g, Normalize(f).value).lastDateIssued == g.lastDateIssued
    ensures !Present(f.attributes.finalDate) ==>
      Absorb(g, Normalize(f).value).lastFinalDate == g.lastFinalDate
    ensures Present(f.attributes.dateReceived) && f.attributes.dateReceived.iso != "" && g.firstDateReceived == "" ==>
      Absorb(g, Normalize(f).value).firstDateReceived == f.attributes.dateReceived.iso
    ensures Present(f.attributes.dateIssued) && f.attributes.dateIssued.iso != "" && g.lastDateIssued == "" ==>
      Absorb(g, Normalize(f).value).lastDateIssued == f.attributes.dateIssued.iso
    ensures Present(f.attributes.finalDate) && f.attributes.finalDate.iso != "" && g.lastFinalDate == "" ==>
      Absorb(g, Normalize(f).value).lastFinalDate == f.attributes.finalDate.iso
  {
    var p := Normalize(f).value;
    assert p.dateReceived == DateText(f.attributes.dateReceived);
    assert p.dateIssued == DateText(f.attributes.dateIssued);
    assert p.finalDate == DateText(f.attributes.finalDate);
  }

  /** One iteration for a keyed permit: create the entry if the key is new,
      then fold the permit into it. */
  function Step(gr: Grouping, p: Permit, today: string): Grouping
  {
    if p.key in gr.groups then Grouping(gr.order, gr.groups[p.key := Absorb(gr.groups[p.key], p)])
    else Grouping(gr.order + [p.key], gr.groups[p.key := Absorb(NewGroup(p, today), p)])
  }

  /** The keyed permits of a feature list, in arrival order. */
  function Keyed(fs: seq<Feature>): (ps: seq<Permit>)
    ensures |ps| <= |fs|
  {
    if fs == [] then []
    else
      var p := Normalize(fs[|fs| - 1]);
      Keyed(fs[..|fs| - 1]) + (if p.Some? then [p.value] else [])
  }

  /** A feature with no key contributes to no group. */
  lemma KeylessIgnored(fs: seq<Feature>, f: Feature)
    requires GroupKey(f.attributes).None?
    ensures Keyed(fs + [f]) == Keyed(fs)
  {
    assert (fs + [f])[..|fs|] == fs;
  }

  /** The dictionary after folding ps in order. */
  function Fold(ps: seq<Permit>, today: string): Grouping
  {
    if ps == [] then Grouping([], map[])
    else Step(Fold(ps[..|ps| - 1], today), ps[|ps| - 1], today)
  }

  /** The grouping loop of build(). */
  method GroupPermits(features: seq<Feature>, today: string) returns (order: seq<string>, grouped: map<string, Group>)
    ensures Grouping(order, grouped) == Fold(Keyed(features), today)
  {
    order := [];
    grouped := map[];
    var i := 0;
    while i < |features|
      invariant 0 <= i <= |features|
      invariant Grouping(order, grouped) == Fold(Keyed(features[..i]), today)
    {
      var normalized := Normalize(features[i]);
      KeyedSnoc(features, i);
      if normalized.Some? {
        FoldSnoc(Keyed(features[..i]), normalized.value, today);
        order, grouped := AddPermit(order, grouped, normalized.value, today);
      } else {
        assert Keyed(features[..i + 1]) == Keyed(features[..i]) + [];
        assert Keyed(features[..i]) + [] == Keyed(features[..i]);
      }
      i := i + 1;
    }
    assert features[..|features|] == features;
  }

  /** The loop body for a keyed permit: create its key's entry if the key is
      new, then fold the permit into the entry. */
  method AddPermit(order0: seq<string>, grouped0: map<string, Group>, p: Permit, today: string)
    returns (order: seq<string>, grouped: map<string, Group>)
    ensures Grouping(order, grouped) == Step(Grouping(order0, grouped0), p, today)
  {
    order, grouped := order0, grouped0;
    if p.key !in grouped {
      order := order + [p.key];
      grouped := grouped[p.key := NewGroup(p, today)];
    }
    var g := Accumulate(grouped[p.key], p);
    grouped := grouped[p.key := g];
  }

  lemma KeyedSnoc(features: seq<Feature>, i: nat)
    requires i < |features|
    ensures Keyed(features[..i + 1]) == Keyed(features[..i])
      + (if Normalize(features[i]).Some? then [Normalize(features[i]).value] else [])
  {
    assert features[..i + 1][..i] == features[..i];
  }

  lemma FoldSnoc(ps: seq<Permit>, p: Permit, today: string)
    ensures Fold(ps + [p], today) == Step(Fold(ps, today), p, today)
  {
    assert (ps + [p])[..|ps|] == ps;
  }

  /** The updates the loop body makes to the entry of a permit's key. */
  method Accumulate(g0: Group, p: Permit) returns (g: Group)
    ensures g == Absorb(g0, p)
  {
    g := g0;
    g := g.(permitCount := g.permitCount + 1);
    g := g.(unitsTotal := g.unitsTotal + p.units);
    g := g.(valuationTotal := g.valuationTotal + p.valuation);
    if p.coord.Some? {
      g := g.(lonSum := g.lonSum + p.coord.value.longitude);
      g := g.(latSum := g.latSum + p.coord.value.latitude);
      g := g.(coordCount := g.coordCount + 1);
    }
    assert g == g0.(
      permitCount := Absorb(g0, p).permitCount,
      unitsTotal := Absorb(g0, p).unitsTotal,
      valuationTotal := Absorb(g0, p).valuationTotal,
      lonSum := Absorb(g0, p).lonSum,
      latSum := Absorb(g0, p).latSum,
      coordCount := Absorb(g0, p).coordCount);
    ghost var counted := g;
    if Rank(p.status) > Rank(g.status) {
      g := g.(status := p.status);
    }
    assert g == counted.(status := Absorb(g0, p).status);
    ghost var ranked := g;
    if p.dateReceived != "" && (g.firstDateReceived == "" || Lt(p.dateReceived, g.firstDateReceived)) {
      g := g.(firstDateReceived := p.dateReceived);
    }
    assert g == ranked.(firstDateReceived := Absorb(g0, p).firstDateReceived);
    ghost var received := g;
    if p.dateIssued != "" && (g.lastDateIssued == "" || Lt(g.lastDateIssued, p.dateIssued)) {
      g := g.(lastDateIssued := p.dateIssued);
    }
    assert g == received.(lastDateIssued := Absorb(g0, p).lastDateIssued);
    if p.finalDate != "" && (g.lastFinalDate == "" || Lt(g.lastFinalDate, p.finalDate)) {
      g := g.(lastFinalDate := p.finalDate);
    }
    assert g == ranked.(
      firstDateReceived := Absorb(g0, p).firstDateReceived,
      lastDateIssued := Absorb(g0, p).lastDateIssued,
      lastFinalDate := Absorb(g0, p).lastFinalDate);
    g := g.(permits := g.permits + [p.detail]);
  }

  // ----- what the fold computes -----

  function KeysOf(ps: seq<Permit>): set<string>
  {
    set i | 0 <= i < |ps| :: ps[i].key
  }

  /** The permits of ps with key k, in arrival order. */
  function Members(ps: seq<Permit>, k: string): (ms: seq<Permit>)
    ensures forall i :: 0 <= i < |ms| ==> ms[i].key == k
    ensures |ms| <= |ps|
  {
    if ps == [] then []
    else Members(ps[..|ps| - 1], k) + (if ps[|ps| - 1].key == k then [ps[|ps| - 1]] else [])
  }

  /** The accumulator of one project: its first permit creates it and every
      permit, the first included, is folded in. */
  function GroupFold(ms: seq<Permit>, today: string): Group
    requires ms != []
  {
    if |ms| == 1 then Absorb(NewGroup(ms[0], today), ms[0])
    else Absorb(GroupFold(ms[..|ms| - 1], today), ms[|ms| - 1])
  }

  /** The dictionary's keys are exactly the keys of the permits, each listed
      once in the insertion order. */
  lemma {:induction false} FoldKeys(ps: seq<Permit>, today: string)
    ensures Fold(ps, today).groups.Keys == KeysOf(ps)
    ensures (set k | k in Fold(ps, today).order) == KeysOf(ps)
    ensures NoDuplicates(Fold(ps, today).order)
  {
    if ps != [] {
      var init, p := ps[..|ps| - 1], ps[|ps| - 1];
      FoldKeys(init, today);
      assert ps == init + [p];
      assert KeysOf(ps) == KeysOf(init) + {p.key} by {
        forall k | k in KeysOf(ps) ensures k in KeysOf(init) + {p.key} {
          var i :| 0 <= i < |ps| && ps[i].key == k;
          if i < |init| {
            assert init[i] == ps[i];
          }
        }
        forall k | k in KeysOf(init) ensures k in KeysOf(ps) {
          var i :| 0 <= i < |init| && init[i].key == k;
          assert ps[i] == init[i];
        }
        assert ps[|ps| - 1] == p;
      }
    }
  }

  /** No key, no group: a permit whose key is k is among k's members. */
  lemma {:induction false} MembersEmpty(ps: seq<Permit>, k: string)
    requires k !in KeysOf(ps)
    ensures Members(ps, k) == []
  {
    if ps != [] {
      var init := ps[..|ps| - 1];
      forall i | 0 <= i < |init| ensures init[i].key != k {
        assert init[i] == ps[i];
      }
      MembersEmpty(init, k);
      assert ps[|ps| - 1].key != k;
    }
  }

  /** Each dictionary entry is the fold of its key's own permits. */
  lemma {:induction false} FoldGroups(ps: seq<Permit>, today: string)
    ensures forall k :: k in Fold(ps, today).groups ==>
      Members(ps, k) != [] && Fold(ps, today).groups[k] == GroupFold(Members(ps, k), today)
  {
    if ps != [] {
      var init, p := ps[..|ps| - 1], ps[|ps| - 1];
      FoldGroups(init, today);
      FoldKeys(init, today);
      var before := Fold(init, today);
      forall k | k in Fold(ps, today).groups
        ensures Members(ps, k) != [] && Fold(ps, today).groups[k] == GroupFold(Members(ps, k), today)
      {
        if k == p.key {
          if k !in before.groups {
            MembersEmpty(init, k);
            assert Members(ps, k) == [p];
          } else {
            var ms := Members(init, k);
            assert Members(ps, k) == ms + [p];
            assert (ms + [p])[..|ms + [p]| - 1] == ms;
          }
        } else {
          assert Members(ps, k) == Members(init, k);
        }
      }
    }
  }

  /** What the entry of key k holds after the whole fold, in terms of k's
      own permits. */
  lemma GroupOfKey(ps: seq<Permit>, today: string, k: string)
    requires k in Fold(ps, today).groups
    ensures Members(ps, k) != []
    ensures var g, ms := Fold(ps, today).groups[k], Members(ps, k);
      && g.projectId == k
      && g.permitCount == |ms|
      && g.unitsTotal == SumInt(ms, UnitsOf)
      && g.permits == Details(ms)
      && MostProgressed(g.status, ms)
      && Earliest(g.firstDateReceived, ms, ReceivedOf)
      && Latest(g.lastDateIssued, ms, IssuedOf)
      && Latest(g.lastFinalDate, ms, FinalOf)
  {
    FoldGroups(ps, today);
    var ms := Members(ps, k);
    GroupIdentity(ms, today);
    GroupCounts(ms, today);
    GroupStatus(ms, today);
    GroupDates(ms, today);
  }

  // ----- what one project's accumulator holds -----

  function UnitsOf(p: Permit): int { p.units }

  function ValuationOf(p: Permit): real { p.valuation }

  function CoordOf(p: Permit): int { if p.coord.Some? then 1 else 0 }

  function LongitudeOf(p: Permit): real { if p.coord.Some? then p.coord.value.longitude else 0.0 }

  function LatitudeOf(p: Permit): real { if p.coord.Some? then p.coord.value.latitude else 0.0 }

  function ReceivedOf(p: Permit): string { p.dateReceived }

  function IssuedOf(p: Permit): string { p.dateIssued }

  function FinalOf(p: Permit): string { p.finalDate }

  /** The audit records of ms, in order. */
  function Details(ms: seq<Permit>): (r: seq<PermitDetail>)
    ensures |r| == |ms|
    ensures forall i :: 0 <= i < |ms| ==> r[i] == ms[i].detail
  {
    if ms == [] then [] else Details(ms[..|ms| - 1]) + [ms[|ms| - 1].detail]
  }

  /** The identity fields come from the project's first permit. */
  lemma {:induction false} GroupIdentity(ms: seq<Permit>, today: string)
    requires ms != []
    ensures GroupFold(ms, today).projectId == ms[0].key
    ensures GroupFold(ms, today).address == ms[0].address
    ensures GroupFold(ms, today).projectName
      == if ms[0].address != "" then ms[0].address else "Residential project " + ms[0].key
    ensures GroupFold(ms, today).neighborhood == ms[0].neighborhood
    ensures GroupFold(ms, today).developer == ms[0].developer
    ensures GroupFold(ms, today).lastUpdated == today
  {
    if |ms| > 1 {
      GroupIdentity(ms[..|ms| - 1], today);
    }
  }

  /** permit_count is the number of members; units, valuation and the
      coordinate sums are sums over them; the audit list holds their
      records in arrival order. */
  lemma {:induction false} GroupCounts(ms: seq<Permit>, today: string)
    requires ms != []
    ensures GroupFold(ms, today).permitCount == |ms|
    ensures GroupFold(ms, today).unitsTotal == SumInt(ms, UnitsOf)
    ensures GroupFold(ms, today).valuationTotal == SumReal(ms, ValuationOf)
    ensures GroupFold(ms, today).coordCount == SumInt(ms, CoordOf)
    ensures GroupFold(ms, today).lonSum == SumReal(ms, LongitudeOf)
    ensures GroupFold(ms, today).latSum == SumReal(ms, LatitudeOf)
    ensures GroupFold(ms, today).permits == Details(ms)
  {
    if |ms| == 1 {
      assert ms[..0] == [];
    } else {
      GroupCounts(ms[..|ms| - 1], today);
    }
  }

  /** s has the highest rank among the members' statuses and is one of them. */
  predicate MostProgressed(s: Lifecycle, ms: seq<Permit>)
  {
    && (exists i :: 0 <= i < |ms| && ms[i].status == s)
    && (forall i :: 0 <= i < |ms| ==> Rank(ms[i].status) <= Rank(s))
  }

  lemma MostProgressedStep(s: Lifecycle, ms: seq<Permit>, p: Permit)
    requires MostProgressed(s, ms)
    ensures MostProgressed(if Rank(p.status) > Rank(s) then p.status else s, ms + [p])
  {
    var t := ms + [p];
    assert t[|ms|] == p;
    assert forall i :: 0 <= i < |ms| ==> t[i] == ms[i];
  }

  /** The group's status is the most progressed of its members' statuses. */
  lemma {:induction false} GroupStatus(ms: seq<Permit>, today: string)
    requires ms != []
    ensures MostProgressed(GroupFold(ms, today).status, ms)
  {
    var init, p := ms[..|ms| - 1], ms[|ms| - 1];
    assert ms == init + [p];
    if |ms| == 1 {
      assert ms[0] == p;
    } else {
      GroupStatus(init, today);
      MostProgressedStep(GroupFold(init, today).status, init, p);
    }
  }

  /** A fold step never lowers the rank of the group's status. */
  lemma {:induction false} RankNeverLowers(ms: seq<Permit>, n: nat, today: string)
    requires 0 < n <= |ms|
    ensures Rank(GroupFold(ms[..n], today).status) <= Rank(GroupFold(ms, today).status)
    decreases |ms|
  {
    if n < |ms| {
      var init := ms[..|ms| - 1];
      assert init[..n] == ms[..n];
      RankNeverLowers(init, n, today);
    } else {
      assert ms[..n] == ms;
    }
  }

  /** d is the least non-empty f-date of ms in string order, or "" when
      there is none. */
  predicate Earliest(d: string, ms: seq<Permit>, f: Permit -> string)
  {
    && (d == "" <==> forall i :: 0 <= i < |ms| ==> f(ms[i]) == "")
    && (d != "" ==> exists i :: 0 <= i < |ms| && f(ms[i]) == d)
    && (forall i :: 0 <= i < |ms| && f(ms[i]) != "" ==> !Lt(f(ms[i]), d))
  }

  /** d is the greatest non-empty f-date of ms, or "" when there is none. */
  predicate Latest(d: string, ms: seq<Permit>, f: Permit -> string)
  {
    && (d == "" <==> forall i :: 0 <= i < |ms| ==> f(ms[i]) == "")
    && (d != "" ==> exists i :: 0 <= i < |ms| && f(ms[i]) == d)
    && (forall i :: 0 <= i < |ms| && f(ms[i]) != "" ==> !Lt(d, f(ms[i])))
  }

  lemma EarlierStep(cur: string, ms: seq<Permit>, p: Permit, f: Permit -> string)
    requires Earliest(cur, ms, f)
    ensures Earliest(Earlier(f(p), cur), ms + [p], f)
  {
    var t := ms + [p];
    assert t[|ms|] == p;
    assert forall i :: 0 <= i < |ms| ==> t[i] == ms[i];
    var d := f(p);
    LtIrreflexive(d);
    if d != "" && cur != "" && Lt(d, cur) {
      forall i | 0 <= i < |ms| && f(ms[i]) != "" ensures !Lt(f(ms[i]), d) {
        if Lt(f(ms[i]), d) {
          LtTransitive(f(ms[i]), d, cur);
        }
      }
    }
  }

  lemma LaterStep(cur: string, ms: seq<Permit>, p: Permit, f: Permit -> string)
    requires Latest(cur, ms, f)
    ensures Latest(Later(f(p), cur), ms + [p], f)
  {
    var t := ms + [p];
    assert t[|ms|] == p;
    assert forall i :: 0 <= i < |ms| ==> t[i] == ms[i];
    var d := f(p);
    LtIrreflexive(d);
    if d != "" && cur != "" && Lt(cur, d) {
      forall i | 0 <= i < |ms| && f(ms[i]) != "" ensures !Lt(d, f(ms[i])) {
        if Lt(d, f(ms[i])) {
          LtTransitive(cur, d, f(ms[i]));
        }
      }
    }
  }

  /** first_date_received is the earliest received date of the members, the
      two other dates the latest issue and final dates. */
  lemma {:induction false} GroupDates(ms: seq<Permit>, today: string)
    requires ms != []
    ensures Earliest(GroupFold(ms, today).firstDateReceived, ms, ReceivedOf)
    ensures Latest(GroupFold(ms, today).lastDateIssued, ms, IssuedOf)
    ensures Latest(GroupFold(ms, today).lastFinalDate, ms, FinalOf)
  {
    var init, p := ms[..|ms| - 1], ms[|ms| - 1];
    assert ms == init + [p];
    if |ms| == 1 {
      assert init == [];
      EarlierStep("", [], p, ReceivedOf);
      LaterStep("", [], p, IssuedOf);
      LaterStep("", [], p, FinalOf);
      LtIrreflexive(p.dateReceived);
      LtIrreflexive(p.dateIssued);
      LtIrreflexive(p.finalDate);
    } else {
      GroupDates(init, today);
      var g := GroupFold(init, today);
      EarlierStep(g.firstDateReceived, init, p, ReceivedOf);
      LaterStep(g.lastDateIssued, init, p, IssuedOf);
      LaterStep(g.lastFinalDate, init, p, FinalOf);
    }
  }

  // ----- order independence -----

  /** The fields of an accumulator that do not depend on arrival order. */
  predicate SameSummary(g: Group, h: Group)
  {
    && g.permitCount == h.permitCount
    && g.unitsTotal == h.unitsTotal
    && g.valuationTotal == h.valuationTotal
    && g.coordCount == h.coordCount
    && g.lonSum == h.lonSum
    && g.latSum == h.latSum
    && g.status == h.status
    && g.firstDateReceived == h.firstDateReceived
    && g.lastDateIssued == h.lastDateIssued
    && g.lastFinalDate == h.lastFinalDate
  }

  /** An element of ms sits somewhere in any permutation of ms. */
  lemma Counterpart(ms: seq<Permit>, ns: seq<Permit>, i: nat) returns (j: nat)
    requires multiset(ms) == multiset(ns) && i < |ms|
    ensures j < |ns| && ns[j] == ms[i]
  {
    assert ms[i] in multiset(ns);
    j :| 0 <= j < |ns| && ns[j] == ms[i];
  }

  lemma MostProgressedUnique(s: Lifecycle, t: Lifecycle, ms: seq<Permit>, ns: seq<Permit>)
    requires multiset(ms) == multiset(ns)
    requires MostProgressed(s, ms) && MostProgressed(t, ns)
    ensures s == t
  {
    var i :| 0 <= i < |ms| && ms[i].status == s;
    var j := Counterpart(ms, ns, i);
    var k :| 0 <= k < |ns| && ns[k].status == t;
    var l := Counterpart(ns, ms, k);
    assert Rank(s) <= Rank(t) && Rank(t) <= Rank(s);
  }

  lemma EarliestUnique(d: string, e: string, ms: seq<Permit>, ns: seq<Permit>, f: Permit -> string)
    requires multiset(ms) == multiset(ns)
    requires Earliest(d, ms, f) && Earliest(e, ns, f)
    ensures d == e
  {
    if d == "" {
      forall j | 0 <= j < |ns| ensures f(ns[j]) == "" {
        var i := Counterpart(ns, ms, j);
      }
    } else {
      var i :| 0 <= i < |ms| && f(ms[i]) == d;
      var j := Counterpart(ms, ns, i);
      assert e != "";
      var k :| 0 <= k < |ns| && f(ns[k]) == e;
      var l := Counterpart(ns, ms, k);
      LtTotal(d, e);
    }
  }

  lemma LatestUnique(d: string, e: string, ms: seq<Permit>, ns: seq<Permit>, f: Permit -> string)
    requires multiset(ms) == multiset(ns)
    requires Latest(d, ms, f) && Latest(e, ns, f)
    ensures d == e
  {
    if d == "" {
      forall j | 0 <= j < |ns| ensures f(ns[j]) == "" {
        var i := Counterpart(ns, ms, j);
      }
    } else {
      var i :| 0 <= i < |ms| && f(ms[i]) == d;
      var j := Counterpart(ms, ns, i);
      assert e != "";
      var k :| 0 <= k < |ns| && f(ns[k]) == e;
      var l := Counterpart(ns, ms, k);
      LtTotal(d, e);
    }
  }

  /** Folding the same permits in another order gives the same counts, sums,
      status and dates. */
  lemma GroupPermutation(ms: seq<Permit>, ns: seq<Permit>, today: string)
    requires ms != [] && multiset(ms) == multiset(ns)
    ensures ns != []
    ensures SameSummary(GroupFold(ms, today), GroupFold(ns, today))
  {
    assert ns != [] by {
      assert |multiset(ns)| == |ms|;
    }
    var g, h := GroupFold(ms, today), GroupFold(ns, today);
    GroupCounts(ms, today);
    GroupCounts(ns, today);
    assert |ms| == |ns| by {
      assert |multiset(ms)| == |multiset(ns)|;
    }
    SumIntPermutation(ms, ns, UnitsOf);
    SumRealPermutation(ms, ns, ValuationOf);
    SumIntPermutation(ms, ns, CoordOf);
    SumRealPermutation(ms, ns, LongitudeOf);
    SumRealPermutation(ms, ns, LatitudeOf);
    GroupStatus(ms, today);
    GroupStatus(ns, today);
    MostProgressedUnique(g.status, h.status, ms, ns);
    GroupDates(ms, today);
    GroupDates(ns, today);
    EarliestUnique(g.firstDateReceived, h.firstDateReceived, ms, ns, ReceivedOf);
    LatestUnique(g.lastDateIssued, h.lastDateIssued, ms, ns, IssuedOf);
    LatestUnique(g.lastFinalDate, h.lastFinalDate, ms, ns, FinalOf);
  }

  /** A key's members are the permits of ps with that key, counted alike. */
  lemma {:induction false} MembersMultiset(ps: seq<Permit>, k: string)
    ensures forall p :: multiset(Members(ps, k))[p] == if p.key == k then multiset(ps)[p] else 0
  {
    if ps != [] {
      var init, last := ps[..|ps| - 1], ps[|ps| - 1];
      MembersMultiset(init, k);
      assert ps == init + [last];
    }
  }

  lemma KeysPermutation(ps: seq<Permit>, qs: seq<Permit>)
    requires multiset(ps) == multiset(qs)
    ensures KeysOf(ps) == KeysOf(qs)
  {
    forall k | k in KeysOf(ps) ensures k in KeysOf(qs) {
      var i :| 0 <= i < |ps| && ps[i].key == k;
      var j := Counterpart(ps, qs, i);
    }
    forall k | k in KeysOf(qs) ensures k in KeysOf(ps) {
      var i :| 0 <= i < |qs| && qs[i].key == k;
      var j := Counterpart(qs, ps, i);
    }
  }

  lemma MembersPermutation(ps: seq<Permit>, qs: seq<Permit>, k: string)
    requires multiset(ps) == multiset(qs)
    ensures multiset(Members(ps, k)) == multiset(Members(qs, k))
  {
    MembersMultiset(ps, k);
    MembersMultiset(qs, k);
  }

  /** Shuffling the permits leaves the same keys, and for each key an
      accumulator with the same counts, sums, status and dates. */
  lemma FoldPermutation(ps: seq<Permit>, qs: seq<Permit>, today: string)
    requires multiset(ps) == multiset(qs)
    ensures Fold(ps, today).groups.Keys == Fold(qs, today).groups.Keys
    ensures forall k :: k in Fold(ps, today).groups ==>
      SameSummary(Fold(ps, today).groups[k], Fold(qs, today).groups[k])
  {
    FoldKeys(ps, today);
    FoldKeys(qs, today);
    KeysPermutation(ps, qs);
    FoldGroups(ps, today);
    FoldGroups(qs, today);
    forall k | k in Fold(ps, today).groups
      ensures SameSummary(Fold(ps, today).groups[k], Fold(qs, today).groups[k])
    {
      MembersPermutation(ps, qs, k);
      GroupPermutation(Members(ps, k), Members(qs, k), today);
    }
  }
}
