/** The status classifier of the stage-1 script: infer_status, a first-match
    decision list over one permit's cancellation flag and lifecycle dates,
    and status_rank, the order in which a grouped project's status only ever
    advances. */
module Status {
  import opened Text
  import opened Fields

  datatype Lifecycle = Cancelled | Proposed | Approved | UnderConstruction | Delivered

  /** The label a status carries in the output (and by which it is sorted). */
  function Label(s: Lifecycle): string
  {
    match s
    case Cancelled => "Cancelled"
    case Proposed => "Proposed"
    case Approved => "Approved"
    case UnderConstruction => "Under Construction"
    case Delivered => "Delivered"
  }

  /** The lifecycle, least advanced first. */
  const LIFECYCLE: seq<Lifecycle> := [Cancelled, Proposed, Approved, UnderConstruction, Delivered]

  /** status_rank: position of a label in the lifecycle; a label that is
      not one of the five ranks 0, like "Cancelled". */
  function StatusRank(name: string): nat
  {
    if name == "Cancelled" then 0
    else if name == "Proposed" then 1
    else if name == "Approved" then 2
    else if name == "Under Construction" then 3
    else if name == "Delivered" then 4
    else 0
  }

  /** The lifecycle position of a status, 0 for Cancelled to 4 for Delivered. */
  function Rank(s: Lifecycle): nat
  {
    match s
    case Cancelled => 0
    case Proposed => 1
    case Approved => 2
    case UnderConstruction => 3
    case Delivered => 4
  }

  /** Rank is status_rank read on the status's label: the position of the
      status in the lifecycle. */
  lemma RankIsStatusRank(s: Lifecycle)
    ensures Rank(s) == StatusRank(Label(s))
    ensures Rank(s) < |LIFECYCLE| && LIFECYCLE[Rank(s)] == s
  {
  }

  /** The rank grows strictly along the lifecycle; unknown labels rank 0;
      and the rank of a status's label tells the status apart. */
  lemma RankOrdersLifecycle(i: nat, j: nat, a: Lifecycle, b: Lifecycle, other: string)
    requires i < j < |LIFECYCLE|
    requires forall s: Lifecycle :: Label(s) != other
    ensures StatusRank(Label(LIFECYCLE[i])) < StatusRank(Label(LIFECYCLE[j]))
    ensures StatusRank(other) == 0
    ensures StatusRank(Label(a)) == StatusRank(Label(b)) ==> a == b
  {
    assert Label(Proposed) != other && Label(Approved) != other;
    assert Label(UnderConstruction) != other && Label(Delivered) != other;
  }

  /** CANCEL, stripped and upper-cased, is one of Y, YES, TRUE, 1. */
  predicate CancelFlag(cancel: Raw)
  {
    Upper(Strip(TextOr(cancel))) in {"Y", "YES", "TRUE", "1"}
  }

  /** DATE_CO_ISSUED holds something other than white space. */
  predicate HasCertificate(co: Raw)
  {
    Strip(TextOr(co)) != ""
  }

  /** infer_status. */
  function InferStatus(a: Attributes): Lifecycle
  {
    if CancelFlag(a.cancel) then Cancelled
    else if Present(a.finalDate) || HasCertificate(a.dateCoIssued) then Delivered
    else if Present(a.dateIssued) then UnderConstruction
    else if Present(a.dateReceived) then Approved
    else Proposed
  }

  /** The decision list, read off the result: each status holds exactly when
      its own signal is present and every earlier one is absent. */
  lemma DecisionOrder(a: Attributes)
    ensures InferStatus(a) == Cancelled <==> CancelFlag(a.cancel)
    ensures InferStatus(a) == Delivered
      <==> !CancelFlag(a.cancel) && (Present(a.finalDate) || HasCertificate(a.dateCoIssued))
    ensures InferStatus(a) == UnderConstruction
      <==> !CancelFlag(a.cancel) && !Present(a.finalDate) && !HasCertificate(a.dateCoIssued)
           && Present(a.dateIssued)
    ensures InferStatus(a) == Approved
      <==> !CancelFlag(a.cancel) && !Present(a.finalDate) && !HasCertificate(a.dateCoIssued)
           && !Present(a.dateIssued) && Present(a.dateReceived)
    ensures InferStatus(a) == Proposed
      <==> !CancelFlag(a.cancel) && !Present(a.finalDate) && !HasCertificate(a.dateCoIssued)
           && !Present(a.dateIssued) && !Present(a.dateReceived)
  {
  }

  /** Every lifecycle signal b has, a also has. */
  predicate AtLeastAsFar(a: Attributes, b: Attributes)
  {
    && (Present(b.finalDate) ==> Present(a.finalDate))
    && (HasCertificate(b.dateCoIssued) ==> HasCertificate(a.dateCoIssued))
    && (Present(b.dateIssued) ==> Present(a.dateIssued))
    && (Present(b.dateReceived) ==> Present(a.dateReceived))
  }

  /** Cancellation decides alone, whatever the dates say; short of that, a
      permit with more lifecycle signals never classifies as less advanced. */
  lemma CancellationDominates(a: Attributes, b: Attributes)
    requires CancelFlag(a.cancel) == CancelFlag(b.cancel)
    ensures CancelFlag(a.cancel) ==> InferStatus(a) == InferStatus(b) == Cancelled
    ensures AtLeastAsFar(a, b) ==> StatusRank(Label(InferStatus(b))) <= StatusRank(Label(InferStatus(a)))
  {
    DecisionOrder(a);
    DecisionOrder(b);
  }

  /** A permit flagged "Y" is Cancelled even though it also has an issue date. */
  lemma CancelledDespiteIssued(a: Attributes)
    requires a.cancel == Str("Y") && Present(a.dateIssued)
    ensures InferStatus(a) == Cancelled
  {
    FlagOf(Str("Y"), "Y", "Y");
  }

  /** The flag is read leniently: the JSON values 1 and true (whose str()
      is "True") cancel; "N" and every falsy value do not. */
  lemma CancelSpellings(falsy: Raw)
    requires !Truthy(falsy)
    ensures CancelFlag(Int(1)) && CancelFlag(Bool(true))
    ensures !CancelFlag(Str("N")) && !CancelFlag(falsy)
  {
    FlagOne();
    FlagTrue();
    FlagN();
    FlagOf(falsy, "", "");
  }

  lemma FlagN()
    ensures !CancelFlag(Str("N"))
  {
    FlagOf(Str("N"), "N", "N");
  }

  /** How CancelFlag reads a value whose text is already stripped. */
  lemma FlagOf(v: Raw, t: string, u: string)
    requires TextOr(v) == t && Strip(t) == t && Upper(t) == u
    ensures CancelFlag(v) == (u in {"Y", "YES", "TRUE", "1"})
  {
  }

  lemma FlagOne()
    ensures CancelFlag(Int(1))
  {
    assert IntToDecimal(1) == "1";
    FlagOf(Int(1), "1", "1");
  }

  lemma FlagTrue()
    ensures CancelFlag(Bool(true))
  {
    UpperTrue();
    FlagOf(Bool(true), "True", "TRUE");
  }

  lemma UpperTrue()
    ensures Upper("True") == "TRUE"
  {
    assert "True"[1..] == "rue";
    assert Upper("rue") == "RUE";
  }
}
