/**
  Receipt-bound approvals as a state machine over immutable states (approval.py, approver.py,
  domain.py:1866-1978, 2634-2717).
  */
module Approval {
  import opened Wrappers
  import opened Ordering
  import opened Domain
  import opened Construction
  import opened Receipt

  // ----- Approver evidence

  function ApproverStatusOf(actor: Subject, binding: ApproverBinding, required: ApprovalRequirement,
                            attempted: ApprovalRequirement): ApproverStatus
  {
    if required != attempted then RequirementMismatch
    else if actor != binding.subject then ApproverSubjectMismatch
    else if binding.principal !in required.allowedPrincipals then PrincipalNotAllowed
    else Authorized
  }

  function CheckApprover(actor: Subject, binding: ApproverBinding, required: ApprovalRequirement,
                         attempted: ApprovalRequirement): ApproverAuthorization
  {
    ApproverAuthorization(ApproverStatusOf(actor, binding, required, attempted), actor, binding, required, attempted)
  }

  /** The status is AUTHORIZED for the bound actor of an allowed principal on this requirement, else the first obstacle. */
  lemma {:induction false} ApproverStatusExact(
    actor: Subject, binding: ApproverBinding, required: ApprovalRequirement, attempted: ApprovalRequirement)
    ensures var status := CheckApprover(actor, binding, required, attempted).status;
            && (status == RequirementMismatch <==> required != attempted)
            && (status == ApproverSubjectMismatch <==> required == attempted && actor != binding.subject)
            && (status == PrincipalNotAllowed <==>
                  && required == attempted && actor == binding.subject
                  && forall p :: p in required.allowedPrincipals ==> p != binding.principal)
            && (status == Authorized <==>
                  && required == attempted && actor == binding.subject
                  && exists p :: p in required.allowedPrincipals && p == binding.principal)
  {
  }

  /** The constructor re-derives the status, so evidence is always what the check would say. */
  predicate Consistent(e: ApproverAuthorization) {
    e == CheckApprover(e.actor, e.binding, e.required, e.attempted)
  }

  // ----- Constructors

  function MakeState(requirement: ApprovalRequirement, status: RequirementStatus,
                     authorization: Option<ApproverAuthorization>, time: int): Option<RequirementState>
  {
    if (status == Approved || status == Rejected) != authorization.Some? then None
    else if authorization.Some? && authorization.value.status != Authorized then None
    else if authorization.Some?
            && (authorization.value.required != requirement || authorization.value.attempted != requirement) then None
    else Some(RequirementState(requirement, status, authorization, time))
  }

  predicate StateLess(a: RequirementState, b: RequirementState) {
    RequirementLess(a.requirement, b.requirement)
  }

  predicate DistinctRequirements(ss: seq<RequirementState>) {
    forall i, j :: 0 <= i < j < |ss| ==> ss[i].requirement != ss[j].requirement
  }

  function CanonicalStates(ss: seq<RequirementState>): Option<seq<RequirementState>> {
    if ss == [] || !DistinctRequirements(ss) then None else Some(Sort(StateLess, ss))
  }

  function RequirementsOf(ss: seq<RequirementState>): (r: seq<ApprovalRequirement>)
    ensures |r| == |ss| && forall i :: 0 <= i < |r| ==> r[i] == ss[i].requirement
  {
    seq(|ss|, i requires 0 <= i < |ss| => ss[i].requirement)
  }

  predicate HasRequirementStatus(ss: seq<RequirementState>, status: RequirementStatus) {
    exists i :: 0 <= i < |ss| && ss[i].status == status
  }

  predicate AllApproved(ss: seq<RequirementState>) {
    forall i :: 0 <= i < |ss| ==> ss[i].status == Approved
  }

  function LatestTime(ss: seq<RequirementState>): (t: int)
    requires ss != []
    ensures exists i :: 0 <= i < |ss| && ss[i].logicalTime == t
    ensures forall i :: 0 <= i < |ss| ==> ss[i].logicalTime <= t
  {
    if |ss| == 1 then ss[0].logicalTime
    else
      var rest := LatestTime(ss[1..]);
      assert forall i :: 1 <= i < |ss| ==> ss[i] == ss[1..][i - 1];
      if ss[0].logicalTime > rest then ss[0].logicalTime else rest
  }

  function Aggregate(ss: seq<RequirementState>): ApprovalStatus {
    if HasRequirementStatus(ss, Rejected) then ApprovalRejected
    else if HasRequirementStatus(ss, Expired) then ApprovalExpired
    else if AllApproved(ss) then ApprovalApproved
    else ApprovalPending
  }

  /** One rejection rejects the whole, else one expiry lets it expire; it is approved when every requirement is. */
  lemma {:induction false} AggregateExact(ss: seq<RequirementState>)
    ensures Aggregate(ss) == ApprovalRejected <==> exists s :: s in ss && s.status == Rejected
    ensures Aggregate(ss) == ApprovalExpired
            <==> (exists s :: s in ss && s.status == Expired) && forall s :: s in ss ==> s.status != Rejected
    ensures Aggregate(ss) == ApprovalApproved <==> forall s :: s in ss ==> s.status == Approved
    ensures Aggregate(ss) == ApprovalPending
            <==> (exists s :: s in ss && s.status == Pending)
                 && forall s :: s in ss ==> s.status == Pending || s.status == Approved
  {
    forall status ensures HasRequirementStatus(ss, status) <==> exists s :: s in ss && s.status == status {
      if HasRequirementStatus(ss, status) {
        var i :| 0 <= i < |ss| && ss[i].status == status;
        assert ss[i] in ss;
      }
    }
    if !AllApproved(ss) {
      var i :| 0 <= i < |ss| && ss[i].status != Approved;
      assert ss[i] in ss;
      assert HasRequirementStatus(ss, ss[i].status);
    }
  }

  /** `PendingApproval._from_transition`. */
  function FromTransition(receipt: DecisionReceipt, receiptDigest: Digest, states: seq<RequirementState>, time: int,
                          consumedAt: Option<int>, permitDigest: Option<Digest>): Option<PendingApproval>
  {
    if receipt.outcome != ApprovalRequired then None
    else
      var ss :- CanonicalStates(states);
      if RequirementsOf(ss) != receipt.approvals then None
      else if exists i :: 0 <= i < |ss| && ss[i].logicalTime > time then None
      else if consumedAt.Some? then
        if consumedAt.value != time || !AllApproved(ss) || permitDigest.None? then None
        else Some(PendingApproval(receipt, receiptDigest, ss, time, consumedAt, permitDigest, ApprovalConsumed))
      else if permitDigest.Some? || ss == [] || LatestTime(ss) != time then None
      else Some(PendingApproval(receipt, receiptDigest, ss, time, None, None, Aggregate(ss)))
  }

  // ----- Operations

  function InitialStates(rs: seq<ApprovalRequirement>, time: int): (ss: seq<RequirementState>)
    ensures |ss| == |rs|
    ensures forall i :: 0 <= i < |rs| ==> ss[i] == RequirementState(rs[i], Pending, None, time)
  {
    seq(|rs|, i requires 0 <= i < |rs| => RequirementState(rs[i], Pending, None, time))
  }

  function CreatePending(id: Identity, receipt: DecisionReceipt, time: int): Option<PendingApproval> {
    FromTransition(receipt, id(OfReceipt(receipt)), InitialStates(receipt.approvals, time), time, None, None)
  }

  datatype TransitionError =
    | TimeBeforeState | AlreadyConsumed | UnknownRequirement | NotPending | EvidenceRequired | EvidenceMismatch
    | ReceiptNotBound | StateNotBound | NotApproved
    | ConstructorCheck

  /** `approve_requirement`, `reject_requirement` and `expire_requirement`. */
  datatype Verb =
    | Approve(evidence: ApproverAuthorization) | Reject(evidence: ApproverAuthorization) | Expire

  function StatusAfter(v: Verb): RequirementStatus {
    match v
    case Approve(_) => Approved
    case Reject(_) => Rejected
    case Expire => Expired
  }

  function EvidenceOf(v: Verb): Option<ApproverAuthorization> {
    if v.Expire? then None else Some(v.evidence)
  }

  /** The first state kept for a requirement. */
  function StateFor(ss: seq<RequirementState>, requirement: ApprovalRequirement): Option<RequirementState> {
    if ss == [] then None
    else if ss[0].requirement == requirement then Some(ss[0])
    else StateFor(ss[1..], requirement)
  }

  function Replace(ss: seq<RequirementState>, replacement: RequirementState): (r: seq<RequirementState>)
    ensures |r| == |ss|
    ensures forall i :: 0 <= i < |ss| ==>
              r[i] == if ss[i].requirement == replacement.requirement then replacement else ss[i]
  {
    seq(|ss|, i requires 0 <= i < |ss| => if ss[i].requirement == replacement.requirement then replacement else ss[i])
  }

  /** The guards of a transition, in the order they are tried. */
  function Refusal(a: PendingApproval, requirement: ApprovalRequirement, verb: Verb, time: int): Option<TransitionError> {
    if time < a.logicalTime then Some(TimeBeforeState)
    else if a.status == ApprovalConsumed then Some(AlreadyConsumed)
    else
      var selected := StateFor(a.states, requirement);
      if selected.None? then Some(UnknownRequirement)
      else if selected.value.status != Pending then Some(NotPending)
      else if !verb.Expire? && verb.evidence.status != Authorized then Some(EvidenceRequired)
      else if !verb.Expire? && (verb.evidence.required != requirement || verb.evidence.attempted != requirement)
        then Some(EvidenceMismatch)
      else None
  }

  function OrCheck(o: Option<PendingApproval>): Result<PendingApproval, TransitionError> {
    if o.Some? then Success(o.value) else Failure(ConstructorCheck)
  }

  /** `_transition_requirement`. */
  function Transition(a: PendingApproval, requirement: ApprovalRequirement, verb: Verb, time: int)
    : Result<PendingApproval, TransitionError>
  {
    var refusal := Refusal(a, requirement, verb, time);
    if refusal.Some? then Failure(refusal.value)
    else
      var replacement := MakeState(requirement, StatusAfter(verb), EvidenceOf(verb), time);
      if replacement.None? then Failure(ConstructorCheck)
      else OrCheck(FromTransition(a.receipt, a.receiptDigest, Replace(a.states, replacement.value), time, None, None))
  }

  /** `consume_approval`. */
  function Consume(id: Identity, a: PendingApproval, permit: ExecutionPermit, time: int)
    : Result<PendingApproval, TransitionError>
  {
    if time < a.logicalTime then Failure(TimeBeforeState)
    else if a.status == ApprovalConsumed then Failure(AlreadyConsumed)
    else if a.receiptDigest != permit.receiptDigest then Failure(ReceiptNotBound)
    else if id(OfApproval(a)) != permit.approvedStateDigest then Failure(StateNotBound)
    else if a.status != ApprovalApproved then Failure(NotApproved)
    else OrCheck(FromTransition(a.receipt, a.receiptDigest, a.states, time, Some(time), Some(id(OfPermit(permit)))))
  }

  // ----- What every state satisfies

  /** A requirement state; its evidence, when present, names a principal the requirement allows. */
  ghost predicate ValidState(s: RequirementState) {
    && MakeState(s.requirement, s.status, s.authorization, s.logicalTime) == Some(s)
    && (s.authorization.Some? ==> Consistent(s.authorization.value))
  }

  ghost predicate ValidApproval(a: PendingApproval) {
    && a.receipt.outcome == ApprovalRequired && ValidReceipt(a.receipt)
    && RequirementsOf(a.states) == a.receipt.approvals
    && (forall i :: 0 <= i < |a.states| ==> ValidState(a.states[i]) && a.states[i].logicalTime <= a.logicalTime)
    && (if a.consumedAt.Some? then
          a.consumedAt == Some(a.logicalTime) && a.permitDigest.Some? && AllApproved(a.states) && a.status == ApprovalConsumed
        else
          && a.permitDigest.None? && a.status == Aggregate(a.states)
          && exists i :: 0 <= i < |a.states| && a.states[i].logicalTime == a.logicalTime)
  }

  lemma {:induction false} StatesDistinct(ss: seq<RequirementState>)
    requires Ascending(RequirementLess, RequirementsOf(ss))
    ensures DistinctRequirements(ss) && (ss != [] ==> CanonicalStates(ss) == Some(ss))
  {
    RequirementLessTotal();
    hide RequirementLess;
    var rs := RequirementsOf(ss);
    forall i, j | 0 <= i < j < |ss| ensures StateLess(ss[i], ss[j]) && !StateLess(ss[j], ss[i]) && rs[i] != rs[j] {
      assert RequirementLess(rs[i], rs[j]);
      StrictAsymmetric(RequirementLess, rs[i], rs[j]);
    }
    SortFixed(StateLess, ss);
  }

  lemma {:induction false} LatestIs(ss: seq<RequirementState>, k: nat)
    requires k < |ss| && forall i :: 0 <= i < |ss| ==> ss[i].logicalTime <= ss[k].logicalTime
    ensures LatestTime(ss) == ss[k].logicalTime
  {
  }

  /** The constructor accepts the receipt's own requirements, none decided later than the latest time. */
  lemma {:induction false} ConstructorAccepts(receipt: DecisionReceipt, digest: Digest, ss: seq<RequirementState>, k: nat)
    requires receipt.outcome == ApprovalRequired && ValidReceipt(receipt) && RequirementsOf(ss) == receipt.approvals
    requires k < |ss| && forall i :: 0 <= i < |ss| ==> ss[i].logicalTime <= ss[k].logicalTime
    ensures FromTransition(receipt, digest, ss, ss[k].logicalTime, None, None)
            == Some(PendingApproval(receipt, digest, ss, ss[k].logicalTime, None, None, Aggregate(ss)))
  {
    StatesDistinct(ss);
    LatestIs(ss, k);
    hide RequirementLess, Aggregate, CanonicalStates, LatestTime, AllApproved;
  }

  lemma {:induction false} StateForFound(ss: seq<RequirementState>, requirement: ApprovalRequirement) returns (k: nat)
    requires StateFor(ss, requirement).Some?
    ensures k < |ss| && ss[k] == StateFor(ss, requirement).value && ss[k].requirement == requirement
  {
    if ss[0].requirement == requirement {
      k := 0;
    } else {
      var j := StateForFound(ss[1..], requirement);
      k := j + 1;
    }
  }

  lemma {:induction false} StateForAt(ss: seq<RequirementState>, k: nat)
    requires DistinctRequirements(ss) && k < |ss|
    ensures StateFor(ss, ss[k].requirement) == Some(ss[k])
  {
    if k > 0 {
      assert ss[0].requirement != ss[k].requirement;
      StateForAt(ss[1..], k - 1);
    }
  }

  /** A fresh approval: every requirement of the receipt is pending, and nothing can go wrong. */
  lemma {:induction false} CreateTotal(id: Identity, receipt: DecisionReceipt, time: int)
    requires ValidReceipt(receipt)
    ensures CreatePending(id, receipt, time).Some? <==> receipt.outcome == ApprovalRequired
    ensures CreatePending(id, receipt, time).Some? ==>
              var a := CreatePending(id, receipt, time).value;
              && ValidApproval(a) && a.receipt == receipt && a.receiptDigest == id(OfReceipt(receipt))
              && a.states == InitialStates(receipt.approvals, time) && a.logicalTime == time && a.status == ApprovalPending
  {
    hide RequirementLess, CanonicalStates, LatestTime, StateFor;
    var ss := InitialStates(receipt.approvals, time);
    assert RequirementsOf(ss) == receipt.approvals;
    if receipt.outcome == ApprovalRequired {
      ConstructorAccepts(receipt, id(OfReceipt(receipt)), ss, 0);
      assert ss[0].status == Pending && ss[0].logicalTime == time;
    }
  }

  /** What a caller has to bring: a time no earlier, a pending requirement, and evidence for exactly it. */
  ghost predicate Allowed(a: PendingApproval, requirement: ApprovalRequirement, verb: Verb, time: int) {
    && a.logicalTime <= time
    && (exists k :: 0 <= k < |a.states| && a.states[k].requirement == requirement && a.states[k].status == Pending)
    && (verb.Expire?
        || (verb.evidence.status == Authorized && verb.evidence.required == requirement == verb.evidence.attempted))
  }

  /** What a decision leaves of a requirement: approving approves, rejecting rejects, each with its evidence; expiry has none. */
  function Decided(requirement: ApprovalRequirement, verb: Verb, time: int): RequirementState {
    match verb
    case Approve(evidence) => RequirementState(requirement, Approved, Some(evidence), time)
    case Reject(evidence) => RequirementState(requirement, Rejected, Some(evidence), time)
    case Expire => RequirementState(requirement, Expired, None, time)
  }

  /** The state after a transition: one requirement decided, the clock moved, the status re-derived. */
  function After(a: PendingApproval, k: nat, verb: Verb, time: int): PendingApproval
    requires k < |a.states|
  {
    var ss := a.states[k := Decided(a.states[k].requirement, verb, time)];
    a.(states := ss, logicalTime := time, status := Aggregate(ss))
  }

  /**
    When the guards pass no constructor check can fire: the transition succeeds, decides exactly
    the named requirement, and keeps the invariant.
    */
  lemma {:induction false} TransitionExact(a: PendingApproval, requirement: ApprovalRequirement, verb: Verb, time: int)
    requires ValidApproval(a) && (!verb.Expire? ==> Consistent(verb.evidence))
    ensures Transition(a, requirement, verb, time) != Failure(ConstructorCheck)
    ensures Transition(a, requirement, verb, time).Success? <==> Allowed(a, requirement, verb, time)
    ensures Transition(a, requirement, verb, time).Success? ==>
              exists k: nat ::
                && k < |a.states| && a.states[k].requirement == requirement && a.states[k].status == Pending
                && Transition(a, requirement, verb, time).value == After(a, k, verb, time)
                && ValidApproval(After(a, k, verb, time)) && a.logicalTime <= time
  {
    hide RequirementLess, CanonicalStates, LatestTime, FromTransition, StateFor, Aggregate, ValidState, AllApproved;
    StatesDistinct(a.states);
    if k: nat :| k < |a.states| && a.states[k].requirement == requirement && a.states[k].status == Pending {
      PendingNotConsumed(a, k);
      StateForAt(a.states, k);
    }
    if Refusal(a, requirement, verb, time).None? {
      var k := StateForFound(a.states, requirement);
      var decided := MakeState(requirement, StatusAfter(verb), EvidenceOf(verb), time).value;
      assert Replace(a.states, decided) == a.states[k := decided];
      PendingNotConsumed(a, k);
      AfterKept(a, k, verb, time);
    }
  }

  ghost predicate Keeps(a: PendingApproval, requirement: ApprovalRequirement) {
    exists k :: 0 <= k < |a.states| && a.states[k].requirement == requirement
  }

  ghost predicate KeepsPending(a: PendingApproval, requirement: ApprovalRequirement) {
    exists k :: 0 <= k < |a.states| && a.states[k].requirement == requirement && a.states[k].status == Pending
  }

  /** A refused transition names the first obstacle: time, consumption, the requirement, its state, the evidence. */
  lemma {:induction false} RefusalIsFirst(a: PendingApproval, requirement: ApprovalRequirement, verb: Verb, time: int)
    requires ValidApproval(a) && (!verb.Expire? ==> Consistent(verb.evidence))
    requires Transition(a, requirement, verb, time).Failure?
    ensures var error := Transition(a, requirement, verb, time).error;
            var onTime, open := a.logicalTime <= time, a.consumedAt.None?;
            && (error == TimeBeforeState <==> !onTime)
            && (error == AlreadyConsumed <==> onTime && !open)
            && (error == UnknownRequirement <==> onTime && open && !Keeps(a, requirement))
            && (error == NotPending <==> onTime && open && Keeps(a, requirement) && !KeepsPending(a, requirement))
            && (error == EvidenceRequired <==>
                  onTime && open && KeepsPending(a, requirement) && !verb.Expire? && verb.evidence.status != Authorized)
            && (error == EvidenceMismatch <==>
                  && onTime && open && KeepsPending(a, requirement) && !verb.Expire?
                  && verb.evidence.status == Authorized && verb.evidence.required != requirement)
  {
    hide RequirementLess, CanonicalStates, LatestTime, FromTransition, StateFor, ValidState, AllApproved, RequirementsOf;
    TransitionExact(a, requirement, verb, time);
    AggregateNotConsumed(a.states);
    hide Aggregate;
    StatesDistinct(a.states) by {
      assert Ascending(RequirementLess, RequirementsOf(a.states));
    }
    if StateFor(a.states, requirement).Some? {
      var k := StateForFound(a.states, requirement);
    }
    forall k: nat | k < |a.states| ensures StateFor(a.states, a.states[k].requirement) == Some(a.states[k]) {
      StateForAt(a.states, k);
    }
  }

  lemma {:induction false} AggregateNotConsumed(ss: seq<RequirementState>)
    ensures Aggregate(ss) != ApprovalConsumed
  {
  }

  lemma {:induction false} PendingNotConsumed(a: PendingApproval, k: nat)
    requires ValidApproval(a) && k < |a.states| && a.states[k].status == Pending
    ensures a.consumedAt.None? && a.permitDigest.None? && a.status != ApprovalConsumed
  {
  }

  lemma {:induction false} AfterKept(a: PendingApproval, k: nat, verb: Verb, time: int)
    requires ValidApproval(a) && k < |a.states| && a.consumedAt.None? && a.permitDigest.None? && a.logicalTime <= time
    requires MakeState(a.states[k].requirement, StatusAfter(verb), EvidenceOf(verb), time).Some?
    requires !verb.Expire? ==> Consistent(verb.evidence)
    ensures ValidApproval(After(a, k, verb, time))
    ensures FromTransition(a.receipt, a.receiptDigest, After(a, k, verb, time).states, time, None, None)
            == Some(After(a, k, verb, time))
  {
    hide RequirementLess, Aggregate, CanonicalStates, LatestTime, FromTransition, AllApproved;
    var b := After(a, k, verb, time);
    assert RequirementsOf(b.states) == RequirementsOf(a.states);
    assert b.states[k].logicalTime == time;
    ConstructorAccepts(a.receipt, a.receiptDigest, b.states, k);
  }

  /** Consumption keeps everything but the clock, the permit and the status; a refusal names the first obstacle. */
  lemma {:induction false} ConsumeExact(id: Identity, a: PendingApproval, permit: ExecutionPermit, time: int)
    requires ValidApproval(a)
    ensures Consume(id, a, permit, time) != Failure(ConstructorCheck)
    ensures Consume(id, a, permit, time).Success?
            <==> && a.logicalTime <= time && a.status == ApprovalApproved && a.receiptDigest == permit.receiptDigest
                 && id(OfApproval(a)) == permit.approvedStateDigest
    ensures Consume(id, a, permit, time).Success? ==>
              var b := Consume(id, a, permit, time).value;
              && b == a.(logicalTime := time, consumedAt := Some(time), permitDigest := Some(id(OfPermit(permit))),
                         status := ApprovalConsumed)
              && ValidApproval(b)
    ensures Consume(id, a, permit, time).Failure? ==>
              var error := Consume(id, a, permit, time).error;
              var onTime, open, bound := a.logicalTime <= time, a.consumedAt.None?, a.receiptDigest == permit.receiptDigest;
              && (error == TimeBeforeState <==> !onTime)
              && (error == AlreadyConsumed <==> onTime && !open)
              && (error == ReceiptNotBound <==> onTime && open && !bound)
              && (error == StateNotBound <==> onTime && open && bound && id(OfApproval(a)) != permit.approvedStateDigest)
              && (error == NotApproved <==>
                    onTime && open && bound && id(OfApproval(a)) == permit.approvedStateDigest && a.status != ApprovalApproved)
  {
    hide RequirementLess, CanonicalStates, LatestTime;
    AggregateNotConsumed(a.states);
    StatesDistinct(a.states);
  }
}
