/** merge of the stage-2 build: every stage-1 project, then the supplemental
    projects whose normalised (name, address) identity is new, sorted for
    display, with recomputed summary figures. */
module Merge {
  import opened Base
  import opened Text
  import opened Status
  import opened Sorting
  import opened Assembly
  import opened Supplemental

  /** An entry of the merged list: a stage-1 project (source_type
      "permit_issued") or a supplemental one ("supplemental_proposed"). */
  datatype Entry = FromPermits(dev: Development) | FromSupplemental(row: SupplementalRow)

  function SourceType(e: Entry): string
  {
    match e
    case FromPermits(_) => "permit_issued"
    case FromSupplemental(_) => "supplemental_proposed"
  }

  function Name(e: Entry): string
  {
    match e
    case FromPermits(d) => d.projectName
    case FromSupplemental(r) => r.projectName
  }

  function Address(e: Entry): string
  {
    match e
    case FromPermits(d) => d.address
    case FromSupplemental(r) => r.address
  }

  /** The entry's status text: a stage-1 project's label, a supplemental row's text. */
  function StatusText(e: Entry): string
  {
    match e
    case FromPermits(d) => Label(d.status)
    case FromSupplemental(r) => r.status
  }

  function Units(e: Entry): int
  {
    match e
    case FromPermits(d) => d.unitsTotal
    case FromSupplemental(r) => r.unitsTotal
  }

  /** The de-duplication key: project name and address, trimmed and lower-cased. */
  type Identity = (string, string)

  function IdentityOf(e: Entry): Identity
  {
    (Lower(Strip(Name(e))), Lower(Strip(Address(e))))
  }

  function DevIdentity(d: Development): Identity
  {
    IdentityOf(FromPermits(d))
  }

  function RowIdentity(r: SupplementalRow): Identity
  {
    IdentityOf(FromSupplemental(r))
  }

  /** The stage-2 sort key (status text, units_total); the third component is fixed. */
  function MergeKey(e: Entry): SortKey
  {
    SortKey(StatusText(e), Units(e), 0)
  }

  /** The stage-1 output the merge reads. */
  datatype Snapshot = Snapshot(kpis: Kpis, developments: seq<Development>)

  /** The stage-2 summary figures: the stage-1 delivered and
      under-construction totals carried over, the rest recomputed. */
  datatype MergedKpis = MergedKpis(
    deliveredUnits: int,
    underConstructionUnits: int,
    projectsTracked: nat,
    pipelineUnits: int,
    proposedOrApprovedProjects: int,
    proposedOrApprovedUnits: int,
    addedSupplemental: nat,
    updatedAt: string)

  datatype Merged = Merged(kpis: MergedKpis, developments: seq<Entry>)

  /** The stage-1 projects as entries. */
  function StageOne(devs: seq<Development>): (es: seq<Entry>)
    ensures |es| == |devs|
  {
    if devs == [] then [] else StageOne(devs[..|devs| - 1]) + [FromPermits(devs[|devs| - 1])]
  }

  /** Supplemental rows as entries. */
  function Additions(rows: seq<SupplementalRow>): (es: seq<Entry>)
    ensures |es| == |rows|
  {
    if rows == [] then [] else Additions(rows[..|rows| - 1]) + [FromSupplemental(rows[|rows| - 1])]
  }

  /** The keys of the elements of s. */
  function Keys<T, K>(s: seq<T>, key: T -> K): set<K>
  {
    if s == [] then {} else Keys(s[..|s| - 1], key) + {key(s[|s| - 1])}
  }

  /** The elements a pass over s appends when it starts from the keys in
      seen: an element whose key is among them, or among those of the
      elements appended before it, is skipped. */
  function Unseen<T, K>(seen: set<K>, s: seq<T>, key: T -> K): seq<T>
  {
    if s == [] then []
    else
      var prev := Unseen(seen, s[..|s| - 1], key);
      var x := s[|s| - 1];
      if key(x) in seen + Keys(prev, key) then prev else prev + [x]
  }

  /** The identities the first loop adds to seen. */
  function DevIdentities(devs: seq<Development>): set<Identity>
  {
    Keys(devs, DevIdentity)
  }

  function RowIdentities(rows: seq<SupplementalRow>): set<Identity>
  {
    Keys(rows, RowIdentity)
  }

  /** The supplemental rows the second loop appends. */
  function Accepted(seen: set<Identity>, supp: seq<SupplementalRow>): seq<SupplementalRow>
  {
    Unseen(seen, supp, RowIdentity)
  }

  /** The merged list before sorting. */
  function Combined(devs: seq<Development>, supp: seq<SupplementalRow>): seq<Entry>
  {
    StageOne(devs) + Additions(Accepted(DevIdentities(devs), supp))
  }

  predicate IsProposedOrApproved(status: string)
  {
    status == "Proposed" || status == "Approved"
  }

  /** max(0, int(units_total or 0)). */
  function PipelineOf(e: Entry): int
  {
    if Units(e) > 0 then Units(e) else 0
  }

  function ProposedUnits(e: Entry): int
  {
    if IsProposedOrApproved(StatusText(e)) then PipelineOf(e) else 0
  }

  function ProposedCount(e: Entry): int
  {
    if IsProposedOrApproved(StatusText(e)) then 1 else 0
  }

  /** The recomputed figures over the merged list. */
  function MergeKpis(k: Kpis, base: seq<Entry>, added: nat, updatedAt: string): (r: MergedKpis)
    ensures r.projectsTracked == |base| && r.addedSupplemental == added
    ensures 0 <= r.proposedOrApprovedProjects <= r.projectsTracked
    ensures 0 <= r.proposedOrApprovedUnits <= r.pipelineUnits
    ensures r.deliveredUnits == k.deliveredUnits && r.underConstructionUnits == k.underConstructionUnits
  {
    SumIntCount(base, ProposedCount);
    SumIntNonNegative(base, ProposedUnits);
    SumIntMonotone(base, ProposedUnits, PipelineOf);
    MergedKpis(
      k.deliveredUnits, k.underConstructionUnits,
      |base|, SumInt(base, PipelineOf),
      SumInt(base, ProposedCount), SumInt(base, ProposedUnits),
      added, updatedAt)
  }

  /** The whole of merge, as a value. */
  function MergeResult(v1: Snapshot, supp: seq<SupplementalRow>, updatedAt: string): Merged
  {
    var devs := v1.developments;
    var added := |Accepted(DevIdentities(devs), supp)|;
    var base := SortDesc(Combined(devs, supp), MergeKey);
    Merged(MergeKpis(v1.kpis, base, added, updatedAt), base)
  }

  /** merge: copy the stage-1 projects, append the new supplemental ones,
      sort, and recompute the figures. */
  method MergeSnapshots(v1: Snapshot, supp: seq<SupplementalRow>, updatedAt: string) returns (out: Merged)
    ensures out == MergeResult(v1, supp, updatedAt)
    ensures |out.developments| == |v1.developments| + out.kpis.addedSupplemental
    ensures SortedDesc(out.developments, MergeKey)
    ensures multiset(out.developments) == multiset(Combined(v1.developments, supp))
  {
    var devs := v1.developments;
    var base, seen := CopyStageOne(devs);
    var added;
    base, seen, added := AppendSupplemental(base, seen, supp);
    base := SortDesc(base, MergeKey);
    SortDescSorted(Combined(devs, supp), MergeKey);
    out := Merged(MergeKpis(v1.kpis, base, added, updatedAt), base);
  }

  /** The first loop: every stage-1 project, with its identity marked seen. */
  method CopyStageOne(devs: seq<Development>) returns (base: seq<Entry>, seen: set<Identity>)
    ensures base == StageOne(devs) && seen == DevIdentities(devs)
  {
    base, seen := [], {};
    var i := 0;
    while i < |devs|
      invariant 0 <= i <= |devs|
      invariant base == StageOne(devs[..i])
      invariant seen == DevIdentities(devs[..i])
    {
      assert devs[..i + 1][..i] == devs[..i];
      var x := FromPermits(devs[i]);
      seen := seen + {IdentityOf(x)};
      base := base + [x];
      i := i + 1;
    }
    assert devs[..|devs|] == devs;
  }

  /** The second loop: a supplemental row whose identity is unseen is
      appended, marked seen and counted. */
  method AppendSupplemental(base0: seq<Entry>, seen0: set<Identity>, supp: seq<SupplementalRow>)
    returns (base: seq<Entry>, seen: set<Identity>, added: nat)
    ensures base == base0 + Additions(Accepted(seen0, supp))
    ensures seen == seen0 + RowIdentities(Accepted(seen0, supp))
    ensures added == |Accepted(seen0, supp)|
  {
    base, seen, added := base0, seen0, 0;
    var j := 0;
    while j < |supp|
      invariant 0 <= j <= |supp|
      invariant base == base0 + Additions(Accepted(seen0, supp[..j]))
      invariant seen == seen0 + RowIdentities(Accepted(seen0, supp[..j]))
      invariant added == |Accepted(seen0, supp[..j])|
    {
      ghost var prev := Accepted(seen0, supp[..j]);
      AcceptStep(seen0, supp, j);
      var d := supp[j];
      var key := RowIdentity(d);
      if key !in seen {
        seen := seen + {key};
        base := base + [FromSupplemental(d)];
        added := added + 1;
        assert (base0 + Additions(prev)) + [FromSupplemental(d)] == base0 + (Additions(prev) + [FromSupplemental(d)]);
        assert seen == seen0 + RowIdentities(prev + [d]);
      }
      j := j + 1;
    }
    assert supp[..|supp|] == supp;
  }

  /** One turn of the second loop. */
  lemma AcceptStep(seen: set<Identity>, supp: seq<SupplementalRow>, j: nat)
    requires j < |supp|
    ensures var prev, row := Accepted(seen, supp[..j]), supp[j];
      && (RowIdentity(row) in seen + RowIdentities(prev) ==> Accepted(seen, supp[..j + 1]) == prev)
      && (RowIdentity(row) !in seen + RowIdentities(prev) ==>
            && Accepted(seen, supp[..j + 1]) == prev + [row]
            && RowIdentities(prev + [row]) == RowIdentities(prev) + {RowIdentity(row)}
            && Additions(prev + [row]) == Additions(prev) + [FromSupplemental(row)])
  {
    UnseenStep(seen, supp, j, RowIdentity);
    var prev, row := Accepted(seen, supp[..j]), supp[j];
    assert (prev + [row])[..|prev|] == prev;
  }

  lemma UnseenStep<T, K>(seen: set<K>, s: seq<T>, j: nat, key: T -> K)
    requires j < |s|
    ensures var prev, x := Unseen(seen, s[..j], key), s[j];
      && (key(x) in seen + Keys(prev, key) ==> Unseen(seen, s[..j + 1], key) == prev)
      && (key(x) !in seen + Keys(prev, key) ==>
            && Unseen(seen, s[..j + 1], key) == prev + [x]
            && Keys(prev + [x], key) == Keys(prev, key) + {key(x)})
  {
    assert s[..j + 1][..j] == s[..j];
    var prev, x := Unseen(seen, s[..j], key), s[j];
    assert (prev + [x])[..|prev|] == prev;
  }

  // ----- what the merged list holds -----

  /** A key is in Keys(s, key) exactly when some element carries it. */
  lemma {:induction false} KeysExact<T, K>(s: seq<T>, key: T -> K)
    ensures forall x :: x in Keys(s, key) ==> exists i :: 0 <= i < |s| && key(s[i]) == x
    ensures forall i :: 0 <= i < |s| ==> key(s[i]) in Keys(s, key)
  {
    if s != [] {
      var init := s[..|s| - 1];
      KeysExact(init, key);
      forall x | x in Keys(init, key) ensures exists i :: 0 <= i < |s| && key(s[i]) == x {
        var i :| 0 <= i < |init| && key(init[i]) == x;
        assert s[i] == init[i];
      }
      forall i | 0 <= i < |init| ensures key(s[i]) in Keys(init, key) {
        assert s[i] == init[i];
      }
    }
  }

  /** After the pass, seen holds the keys it started with and those of
      every element, appended or not. */
  lemma {:induction false} SeenCovers<T, K>(seen: set<K>, s: seq<T>, key: T -> K)
    ensures seen + Keys(Unseen(seen, s, key), key) == seen + Keys(s, key)
  {
    if s != [] {
      var init, x := s[..|s| - 1], s[|s| - 1];
      var prev := Unseen(seen, init, key);
      SeenCovers(seen, init, key);
      assert (prev + [x])[..|prev|] == prev;
    }
  }

  /** No element of acc has a key in seen, and no two share a key. */
  predicate FreshKeys<T, K>(seen: set<K>, acc: seq<T>, key: T -> K)
  {
    && (forall i :: 0 <= i < |acc| ==> key(acc[i]) !in seen)
    && (forall i, j :: 0 <= i < j < |acc| ==> key(acc[i]) != key(acc[j]))
  }

  /** The appended elements: none has a key that was seen before the pass,
      and no two share a key. */
  lemma {:induction false} UnseenFresh<T, K>(seen: set<K>, s: seq<T>, key: T -> K)
    ensures FreshKeys(seen, Unseen(seen, s, key), key)
  {
    if s != [] {
      var init, x := s[..|s| - 1], s[|s| - 1];
      var prev := Unseen(seen, init, key);
      UnseenFresh(seen, init, key);
      if key(x) !in seen + Keys(prev, key) {
        var acc := prev + [x];
        KeysExact(prev, key);
        forall i | 0 <= i < |acc| ensures key(acc[i]) !in seen {
          if i < |prev| {
            assert acc[i] == prev[i];
          }
        }
        forall i, j | 0 <= i < j < |acc| ensures key(acc[i]) != key(acc[j]) {
          assert acc[i] == prev[i];
          if j < |prev| {
            assert acc[j] == prev[j];
          } else {
            assert key(prev[i]) in Keys(prev, key);
          }
        }
        assert FreshKeys(seen, acc, key);
      }
    }
  }

  /** The appended elements come from s. */
  lemma {:induction false} UnseenFrom<T, K>(seen: set<K>, s: seq<T>, key: T -> K)
    ensures forall r :: r in Unseen(seen, s, key) ==> r in s
  {
    if s != [] {
      var init := s[..|s| - 1];
      UnseenFrom(seen, init, key);
      forall r | r in Unseen(seen, init, key) ensures r in s {
        var i :| 0 <= i < |init| && init[i] == r;
        assert s[i] == r;
      }
    }
  }

  /** Distinct keys make distinct elements. */
  lemma FreshDistinct<T, K>(seen: set<K>, acc: seq<T>, key: T -> K)
    requires FreshKeys(seen, acc, key)
    ensures NoDuplicates(acc)
  {
    forall i, j | 0 <= i < j < |acc| ensures acc[i] != acc[j] {
      assert key(acc[i]) != key(acc[j]);
    }
  }

  /** The appended rows: from the supplemental list, none with an identity
      that was seen before the loop, no two with the same identity, so no
      row twice. */
  lemma AcceptedFresh(seen: set<Identity>, supp: seq<SupplementalRow>)
    ensures forall r :: r in Accepted(seen, supp) ==> r in supp
    ensures FreshKeys(seen, Accepted(seen, supp), RowIdentity)
    ensures NoDuplicates(Accepted(seen, supp))
  {
    UnseenFrom(seen, supp, RowIdentity);
    UnseenFresh(seen, supp, RowIdentity);
    FreshDistinct(seen, Accepted(seen, supp), RowIdentity);
  }

  /** How often an entry occurs among the stage-1 entries. */
  lemma {:induction false} StageOneCount(devs: seq<Development>, e: Entry)
    ensures multiset(StageOne(devs))[e] == if e.FromPermits? then multiset(devs)[e.dev] else 0
  {
    if devs != [] {
      var init := devs[..|devs| - 1];
      StageOneCount(init, e);
      assert devs == init + [devs[|devs| - 1]];
    }
  }

  /** How often an entry occurs among the appended supplemental entries. */
  lemma {:induction false} AdditionsCount(rows: seq<SupplementalRow>, e: Entry)
    ensures multiset(Additions(rows))[e] == if e.FromSupplemental? then multiset(rows)[e.row] else 0
  {
    if rows != [] {
      var init := rows[..|rows| - 1];
      AdditionsCount(init, e);
      assert rows == init + [rows[|rows| - 1]];
    }
  }

  /** How often an entry occurs in the merged list: a stage-1 entry as
      often as the project in the stage-1 output, a supplemental one as
      often as its row among the appended rows. */
  lemma MergedCount(v1: Snapshot, supp: seq<SupplementalRow>, updatedAt: string, e: Entry)
    ensures multiset(MergeResult(v1, supp, updatedAt).developments)[e] ==
      if e.FromPermits? then multiset(v1.developments)[e.dev]
      else multiset(Accepted(DevIdentities(v1.developments), supp))[e.row]
  {
    var devs := v1.developments;
    var acc := Accepted(DevIdentities(devs), supp);
    StageOneCount(devs, e);
    AdditionsCount(acc, e);
    assert multiset(Combined(devs, supp)) == multiset(StageOne(devs)) + multiset(Additions(acc));
  }

  /** Every stage-1 project is in the merged list, as many times as in the
      stage-1 output, tagged as coming from the permits and otherwise as it
      was. */
  lemma StageOneKept(v1: Snapshot, supp: seq<SupplementalRow>, updatedAt: string, d: Development)
    ensures multiset(MergeResult(v1, supp, updatedAt).developments)[FromPermits(d)] == multiset(v1.developments)[d]
    ensures FromPermits(d) in MergeResult(v1, supp, updatedAt).developments <==> d in v1.developments
    ensures SourceType(FromPermits(d)) == "permit_issued"
  {
    MergedCount(v1, supp, updatedAt, FromPermits(d));
  }

  /** A supplemental entry of the merged list occurs once and comes from
      the supplemental list. */
  lemma SupplementalOnce(v1: Snapshot, supp: seq<SupplementalRow>, updatedAt: string, e: Entry)
    requires e in MergeResult(v1, supp, updatedAt).developments && e.FromSupplemental?
    ensures multiset(MergeResult(v1, supp, updatedAt).developments)[e] == 1
    ensures e.row in supp && SourceType(e) == "supplemental_proposed"
  {
    var acc := Accepted(DevIdentities(v1.developments), supp);
    MergedCount(v1, supp, updatedAt, e);
    AcceptedFresh(DevIdentities(v1.developments), supp);
    MultiplicityOfDistinct(acc, e.row);
  }

  /** No supplemental entry of the merged list shares its identity with a
      stage-1 entry. */
  lemma StageOneWins(v1: Snapshot, supp: seq<SupplementalRow>, updatedAt: string, e: Entry, f: Entry)
    requires e in MergeResult(v1, supp, updatedAt).developments && e.FromSupplemental?
    requires f in MergeResult(v1, supp, updatedAt).developments && f.FromPermits?
    ensures IdentityOf(e) != IdentityOf(f)
  {
    var devs := v1.developments;
    MergedCount(v1, supp, updatedAt, e);
    MergedCount(v1, supp, updatedAt, f);
    assert e.row in Accepted(DevIdentities(devs), supp) && f.dev in devs;
    NotAmongStageOne(devs, supp, e.row, f.dev);
  }

  lemma NotAmongStageOne(devs: seq<Development>, supp: seq<SupplementalRow>, r: SupplementalRow, d: Development)
    requires r in Accepted(DevIdentities(devs), supp) && d in devs
    ensures RowIdentity(r) != DevIdentity(d)
  {
    var acc := Accepted(DevIdentities(devs), supp);
    AcceptedFresh(DevIdentities(devs), supp);
    var i :| 0 <= i < |acc| && acc[i] == r;
    assert RowIdentity(acc[i]) !in DevIdentities(devs);
    KeysExact(devs, DevIdentity);
    var k :| 0 <= k < |devs| && devs[k] == d;
    assert DevIdentity(devs[k]) in DevIdentities(devs);
  }

  /** No two supplemental entries of the merged list share an identity. */
  lemma NoSupplementalTwins(v1: Snapshot, supp: seq<SupplementalRow>, updatedAt: string, e: Entry, f: Entry)
    requires e in MergeResult(v1, supp, updatedAt).developments && e.FromSupplemental?
    requires f in MergeResult(v1, supp, updatedAt).developments && f.FromSupplemental?
    requires e != f
    ensures IdentityOf(e) != IdentityOf(f)
  {
    MergedCount(v1, supp, updatedAt, e);
    MergedCount(v1, supp, updatedAt, f);
    var seen := DevIdentities(v1.developments);
    assert e.row in Accepted(seen, supp) && f.row in Accepted(seen, supp);
    DistinctAccepted(seen, supp, e.row, f.row);
  }

  lemma DistinctAccepted(seen: set<Identity>, supp: seq<SupplementalRow>, r: SupplementalRow, t: SupplementalRow)
    requires r in Accepted(seen, supp) && t in Accepted(seen, supp) && r != t
    ensures RowIdentity(r) != RowIdentity(t)
  {
    var acc := Accepted(seen, supp);
    AcceptedFresh(seen, supp);
    var i :| 0 <= i < |acc| && acc[i] == r;
    var j :| 0 <= j < |acc| && acc[j] == t;
    if i < j {
      assert RowIdentity(acc[i]) != RowIdentity(acc[j]);
    } else {
      assert RowIdentity(acc[j]) != RowIdentity(acc[i]);
    }
  }

  /** Stage-1 projects always win: a supplemental row whose identity is that
      of a stage-1 project, or of an earlier supplemental row, is skipped
      and changes neither the list nor the added count. */
  lemma SkipSeen(v1: Snapshot, supp: seq<SupplementalRow>, updatedAt: string, r: SupplementalRow)
    requires (exists i :: 0 <= i < |v1.developments| && DevIdentity(v1.developments[i]) == RowIdentity(r))
          || (exists i :: 0 <= i < |supp| && RowIdentity(supp[i]) == RowIdentity(r))
    ensures MergeResult(v1, supp + [r], updatedAt) == MergeResult(v1, supp, updatedAt)
  {
    var seen := DevIdentities(v1.developments);
    KeysExact(v1.developments, DevIdentity);
    KeysExact(supp, RowIdentity);
    AcceptSeen(seen, supp, r);
  }

  /** A row whose identity is seen or that of an earlier row is skipped. */
  lemma AcceptSeen(seen: set<Identity>, supp: seq<SupplementalRow>, r: SupplementalRow)
    requires RowIdentity(r) in seen + RowIdentities(supp)
    ensures Accepted(seen, supp + [r]) == Accepted(seen, supp)
  {
    SeenCovers(seen, supp, RowIdentity);
    assert (supp + [r])[..|supp|] == supp;
  }

  /** A row whose identity is neither seen nor that of an earlier row is appended. */
  lemma AcceptNew(seen: set<Identity>, supp: seq<SupplementalRow>, r: SupplementalRow)
    requires RowIdentity(r) !in seen + RowIdentities(supp)
    ensures Accepted(seen, supp + [r]) == Accepted(seen, supp) + [r]
  {
    SeenCovers(seen, supp, RowIdentity);
    assert (supp + [r])[..|supp|] == supp;
  }

  /** A supplemental row with a new identity is appended and counted. */
  lemma AppendFresh(v1: Snapshot, supp: seq<SupplementalRow>, updatedAt: string, r: SupplementalRow)
    requires forall i :: 0 <= i < |v1.developments| ==> DevIdentity(v1.developments[i]) != RowIdentity(r)
    requires forall i :: 0 <= i < |supp| ==> RowIdentity(supp[i]) != RowIdentity(r)
    ensures MergeResult(v1, supp + [r], updatedAt).kpis.addedSupplemental
      == MergeResult(v1, supp, updatedAt).kpis.addedSupplemental + 1
    ensures multiset(MergeResult(v1, supp + [r], updatedAt).developments)
      == multiset(MergeResult(v1, supp, updatedAt).developments) + multiset{FromSupplemental(r)}
  {
    CombinedAppend(v1.developments, supp, r);
  }

  lemma CombinedAppend(devs: seq<Development>, supp: seq<SupplementalRow>, r: SupplementalRow)
    requires forall i :: 0 <= i < |devs| ==> DevIdentity(devs[i]) != RowIdentity(r)
    requires forall i :: 0 <= i < |supp| ==> RowIdentity(supp[i]) != RowIdentity(r)
    ensures Accepted(DevIdentities(devs), supp + [r]) == Accepted(DevIdentities(devs), supp) + [r]
    ensures Combined(devs, supp + [r]) == Combined(devs, supp) + [FromSupplemental(r)]
  {
    var seen := DevIdentities(devs);
    var acc := Accepted(seen, supp);
    KeysExact(devs, DevIdentity);
    KeysExact(supp, RowIdentity);
    AcceptNew(seen, supp, r);
    assert (acc + [r])[..|acc|] == acc;
  }

  /** Every supplemental row is represented in the merged list by an entry
      with its identity. */
  lemma SupplementalRepresented(v1: Snapshot, supp: seq<SupplementalRow>, updatedAt: string, i: nat)
    requires i < |supp|
    ensures exists e :: e in MergeResult(v1, supp, updatedAt).developments && IdentityOf(e) == RowIdentity(supp[i])
  {
    var devs := v1.developments;
    var seen := DevIdentities(devs);
    var acc := Accepted(seen, supp);
    SeenCovers(seen, supp, RowIdentity);
    KeysExact(supp, RowIdentity);
    assert RowIdentity(supp[i]) in seen + RowIdentities(acc);
    if RowIdentity(supp[i]) in seen {
      KeysExact(devs, DevIdentity);
      var k :| 0 <= k < |devs| && DevIdentity(devs[k]) == RowIdentity(supp[i]);
      MergedCount(v1, supp, updatedAt, FromPermits(devs[k]));
      assert FromPermits(devs[k]) in multiset(MergeResult(v1, supp, updatedAt).developments);
    } else {
      KeysExact(acc, RowIdentity);
      var k :| 0 <= k < |acc| && RowIdentity(acc[k]) == RowIdentity(supp[i]);
      MergedCount(v1, supp, updatedAt, FromSupplemental(acc[k]));
      assert FromSupplemental(acc[k]) in multiset(MergeResult(v1, supp, updatedAt).developments);
    }
  }

  /** The proposed-or-approved test on a stage-1 entry is a test on its lifecycle status. */
  lemma StageOneProposed(d: Development)
    ensures IsProposedOrApproved(StatusText(FromPermits(d))) <==> d.status == Proposed || d.status == Approved
  {
  }
}
