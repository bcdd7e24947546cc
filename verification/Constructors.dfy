/**
  What the constructors of evidence accept, said of the values accepted (domain.py). On the way of
  the program none of their checks ever fires; these are the checks.
  */
module Constructors {
  import opened Wrappers
  import opened Ordering
  import opened Utf8
  import opened Domain
  import opened Applicability
  import opened Construction
  import opened Evaluator
  import opened Delegation
  import opened Receipt
  import opened Approval
  import opened Execution
  import opened Attestation
  import opened Authentication
  import opened Trusted
  import opened Store

  // ----- Evaluation

  ghost predicate Has(results: seq<(string, ConditionStatus)>, status: ConditionStatus) {
    exists e :: e in results && e.1 == status
  }

  lemma {:induction false} HasResultExact(results: seq<(string, ConditionStatus)>, status: ConditionStatus)
    ensures HasResult(results, status) <==> Has(results, status)
  {
    if HasResult(results, status) {
      var i :| 0 <= i < |results| && results[i].1 == status;
      assert results[i] in results;
    }
  }

  /** A rule evaluation: named, distinct and nonblank conditions, all evaluated, with the status they give. */
  lemma {:induction false} RuleEvaluationAccepts(
    policyId: string, ruleId: string, effect: Effect, status: RuleStatus, results: seq<(string, ConditionStatus)>)
    ensures MakeRuleEvaluation(policyId, ruleId, effect, status, results).Some? <==>
      && !Blank(policyId) && !Blank(ruleId) && results != [] && !Has(results, NotEvaluated)
      && (forall i :: 0 <= i < |results| ==> !Blank(results[i].0))
      && (forall i, j :: 0 <= i < j < |results| ==> results[i].0 != results[j].0)
      && match status {
           case NotMatched => Has(results, Unsatisfied)
           case Indeterminate => !Has(results, Unsatisfied) && (Has(results, MissingInput) || Has(results, ConditionError))
           case Matched => !Has(results, Unsatisfied) && !Has(results, MissingInput) && !Has(results, ConditionError)
         }
    ensures MakeRuleEvaluation(policyId, ruleId, effect, status, results).Some? ==>
              var e := MakeRuleEvaluation(policyId, ruleId, effect, status, results).value;
              && e.policyId == policyId && e.ruleId == ruleId && e.effect == effect && e.status == status
              && forall x :: x in e.results <==> x in results
  {
    hide Blank, Sort, HasResult, Has;
    var sorted := Sort(StringKeyLess<ConditionStatus>, results);
    SortMembers(StringKeyLess<ConditionStatus>, results);
    forall s ensures HasResult(sorted, s) <==> Has(results, s) {
      HasResultExact(sorted, s);
      SameHas(sorted, results, s);
    }
    assert forall e: (string, ConditionStatus) :: KeyOf(e) == e.0;
  }

  lemma {:induction false} SameHas(a: seq<(string, ConditionStatus)>, b: seq<(string, ConditionStatus)>, s: ConditionStatus)
    requires forall x :: x in a <==> x in b
    ensures Has(a, s) <==> Has(b, s)
  {
  }

  /** Evidence: about one request, one authority and one grant, with each rule once. */
  lemma {:induction false} DecisionEvidenceAccepts(
    bundleDigest: Digest, requestDigest: Digest, rules: seq<RuleEvaluation>, a: Option<ApplicabilityResult>,
    b: Option<BindingResult>)
    ensures MakeEvidence(bundleDigest, requestDigest, rules, a, b).Some? <==>
      && (a.Some? ==> a.value.requestDigest == requestDigest)
      && (b.Some? ==> b.value.requestDigest == requestDigest)
      && (a.Some? && b.Some? ==> b.value.authorityDigest == a.value.authorityDigest && b.value.grantId == a.value.grantId)
      && forall i, j :: 0 <= i < j < |rules| ==> (rules[i].policyId, rules[i].ruleId) != (rules[j].policyId, rules[j].ruleId)
  {
    hide Sort;
  }

  /** A decision: with a reason, approvals exactly for its outcome, and a grant only on a match, a holder and a scope. */
  lemma {:induction false} DecisionAccepts(
    outcome: Outcome, reasons: seq<Reason>, evidence: DecisionEvidence, obligations: seq<Obligation>,
    requirements: seq<ApprovalRequirement>)
    ensures MakeDecision(outcome, reasons, evidence, obligations, requirements).Some? <==>
      && reasons != [] && (forall i, j :: 0 <= i < j < |requirements| ==> requirements[i] != requirements[j])
      && (outcome == ApprovalRequired <==> requirements != [])
      && (outcome != Deny ==>
            && (exists i :: 0 <= i < |evidence.rules| && evidence.rules[i].status == Matched)
            && evidence.binding.Some? && evidence.binding.value.status == Bound
            && evidence.applicability.Some? && evidence.applicability.value.status == Applicable)
  {
    hide RequirementLess;
    assert |Sort(RequirementLess, requirements)| == |requirements|;
  }

  // ----- Authority evidence

  predicate Exceeds(b: BoundEvaluation) { b.supplied.Number? && b.supplied.n > b.upperBound }

  /** A bound's evaluation: its status says whether a value is there, is an integer, and is within the bound. */
  lemma {:induction false} BoundAccepts(b: BoundEvaluation)
    ensures MakeBound(b).Some? <==>
      && !Blank(b.name) && (!b.present ==> b.supplied.NoValue?)
      && match b.status {
           case MissingContext => !b.present
           case BoundTypeError => b.present && !b.supplied.Number?
           case BoundExceeded => b.present && Exceeds(b)
           case Applicable => b.present && b.supplied.Number? && !Exceeds(b)
           case _ => false
         }
    ensures MakeBound(b).Some? ==> MakeBound(b).value == b
  {
  }

  ghost predicate SomeBound(r: ApplicabilityResult, status: ApplicabilityStatus) {
    exists b :: b in r.bounds && b.status == status
  }

  /** An applicability result: distinct bounds, matches that are matches, and the status of its first obstacle. */
  lemma {:induction false} ApplicabilityAccepts(r: ApplicabilityResult)
    ensures MakeApplicability(r).Some? <==>
      && !Blank(r.grantId) && (forall i, j :: 0 <= i < j < |r.bounds| ==> r.bounds[i].name != r.bounds[j].name)
      && (r.actionMatches <==> r.expectedAction == r.requestAction)
      && (r.resourceMatches <==> r.expectedResource == r.requestResource)
      && match r.status {
           case ActionMismatch => !r.actionMatches
           case ResourceMismatch => r.actionMatches && !r.resourceMatches
           case MissingContext => r.actionMatches && r.resourceMatches && SomeBound(r, MissingContext)
           case BoundTypeError =>
             r.actionMatches && r.resourceMatches && !SomeBound(r, MissingContext) && SomeBound(r, BoundTypeError)
           case BoundExceeded =>
             && r.actionMatches && r.resourceMatches && !SomeBound(r, MissingContext) && !SomeBound(r, BoundTypeError)
             && SomeBound(r, BoundExceeded)
           case Applicable =>
             && r.actionMatches && r.resourceMatches && !SomeBound(r, MissingContext) && !SomeBound(r, BoundTypeError)
             && !SomeBound(r, BoundExceeded)
         }
  {
    hide Blank, HasStatus, SomeBound;
    assert forall b :: BoundName(b) == b.name;
    if DistinctKeys(BoundName, r.bounds) {
      var sorted := Canonical(BoundName, r.bounds).value;
      CanonicalAscending(BoundName, r.bounds);
      hide Canonical;
      forall status ensures HasStatus(sorted, status) <==> SomeBound(r, status) {
        StatusKept(sorted, r, status);
      }
    }
  }

  lemma {:induction false} StatusKept(sorted: seq<BoundEvaluation>, r: ApplicabilityResult, status: ApplicabilityStatus)
    requires forall b :: b in sorted <==> b in r.bounds
    ensures HasStatus(sorted, status) <==> SomeBound(r, status)
  {
    if HasStatus(sorted, status) {
      var i :| 0 <= i < |sorted| && sorted[i].status == status;
      assert sorted[i] in sorted;
    }
    if SomeBound(r, status) {
      var b :| b in r.bounds && b.status == status;
      assert b in sorted;
    }
  }

  /** A binding result: its status says whether subject and principal are those of the authority's holder. */
  lemma {:induction false} BindingAccepts(r: BindingResult)
    ensures MakeBindingResult(r).Some? <==>
      && !Blank(r.grantId)
      && match r.status {
           case SubjectMismatch => r.requestSubject != r.binding.subject
           case PrincipalMismatch => r.requestSubject == r.binding.subject && r.binding.principal != r.authorityPrincipal
           case Bound => r.binding == SubjectPrincipalBinding(r.requestSubject, r.authorityPrincipal)
         }
  {
  }

  // ----- Approval

  /** The state of a requirement: a decision comes with the evidence that authorizes it, for this requirement. */
  lemma {:induction false} StateAccepts(
    requirement: ApprovalRequirement, status: RequirementStatus, e: Option<ApproverAuthorization>, time: int)
    ensures MakeState(requirement, status, e, time).Some? <==>
      if status == Approved || status == Rejected then
        e.Some? && e.value.status == Authorized && e.value.required == requirement == e.value.attempted
      else e.None?
    ensures MakeState(requirement, status, e, time).Some? ==>
              MakeState(requirement, status, e, time).value == RequirementState(requirement, status, e, time)
  {
  }

  ghost predicate NoneLater(states: seq<RequirementState>, time: int) {
    forall s :: s in states ==> s.logicalTime <= time
  }

  ghost predicate SomeAt(states: seq<RequirementState>, time: int) {
    exists s :: s in states && s.logicalTime == time
  }

  ghost predicate EachApproved(states: seq<RequirementState>) {
    forall s :: s in states ==> s.status == Approved
  }

  /** An approval state: the receipt's requirements, each once, none decided later than now, and consumed only when complete. */
  lemma {:induction false} ApprovalAccepts(
    receipt: DecisionReceipt, digest: Digest, states: seq<RequirementState>, time: int, consumedAt: Option<int>,
    permit: Option<Digest>)
    ensures FromTransition(receipt, digest, states, time, consumedAt, permit).Some? <==>
      && receipt.outcome == ApprovalRequired && states != []
      && (forall i, j :: 0 <= i < j < |states| ==> states[i].requirement != states[j].requirement)
      && RequirementsOf(Sort(StateLess, states)) == receipt.approvals
      && NoneLater(states, time) && (consumedAt.Some? <==> permit.Some?)
      && (consumedAt.Some? ==> consumedAt.value == time && EachApproved(states))
      && (consumedAt.None? ==> SomeAt(states, time))
  {
    hide StateLess, Aggregate, LatestTime, RequirementsOf, Sort, AllApproved, NoneLater, SomeAt, EachApproved;
    hide CanonicalStates;
    StatesAccepted(states);
    SameStates(states, Sort(StateLess, states), time);
  }

  lemma {:induction false} StatesAccepted(states: seq<RequirementState>)
    ensures var ss := Sort(StateLess, states);
            |ss| == |states| && (forall s :: s in ss <==> s in states)
    ensures CanonicalStates(states).Some? <==>
      states != [] && forall i, j :: 0 <= i < j < |states| ==> states[i].requirement != states[j].requirement
    ensures CanonicalStates(states).Some? ==> CanonicalStates(states).value == Sort(StateLess, states)
  {
    hide StateLess;
    SortMembers(StateLess, states);
  }

  lemma {:induction false} SameStates(states: seq<RequirementState>, ss: seq<RequirementState>, time: int)
    requires forall s :: s in ss <==> s in states
    ensures (exists i :: 0 <= i < |ss| && ss[i].logicalTime > time) <==> !NoneLater(states, time)
    ensures AllApproved(ss) <==> EachApproved(states)
    ensures ss != [] && NoneLater(states, time) ==> (LatestTime(ss) == time <==> SomeAt(states, time))
  {
    assert forall i :: 0 <= i < |ss| ==> ss[i] in states;
    if ss != [] {
      var i :| 0 <= i < |ss| && ss[i].logicalTime == LatestTime(ss);
      assert ss[i] in states;
    }
    hide LatestTime;
  }

  /** A receipt: evidence digests come with the authority they are about, and all are there unless it denies. */
  lemma {:induction false} ReceiptAccepts(
    request: Digest, bundle: Digest, authority: Option<Digest>, chain: Option<Digest>, state: Option<Digest>,
    binding: Option<Digest>, applicability: Option<Digest>, decision: Digest, outcome: Outcome,
    requirements: seq<ApprovalRequirement>)
    ensures FromEvaluation(request, bundle, authority, chain, state, binding, applicability, decision, outcome, requirements).Some?
      <==>
      && (forall i, j :: 0 <= i < j < |requirements| ==> requirements[i] != requirements[j])
      && (outcome == ApprovalRequired <==> requirements != [])
      && (binding.Some? ==> authority.Some?)
      && (applicability.Some? ==> authority.Some? && chain.Some? && state.Some?)
      && (outcome != Deny ==> binding.Some? && applicability.Some?)
  {
    hide RequirementLess;
    assert |Sort(RequirementLess, requirements)| == |requirements|;
  }

  // ----- Execution

  /** A permit: for a decision that required approval of a bound and applicable request, all digests agreeing with its evidence. */
  lemma {:induction false} PermitAccepts(p: ExecutionPermit)
    ensures MakePermit(p).Some? <==>
      && p.decision.outcome == ApprovalRequired && p.binding.status == Bound && p.applicability.status == Applicable
      && p.decision.evidence.binding == Some(p.binding) && p.decision.evidence.applicability == Some(p.applicability)
      && p.decision.evidence.bundleDigest == p.bundleDigest
      && p.decision.evidence.requestDigest == p.requestDigest == p.applicability.requestDigest
      && p.applicability.authorityDigest == p.authorityDigest
      && p.applicability.chainDigest == p.chainDigest && p.applicability.stateDigest == p.stateDigest
  {
  }

  /** A revalidation result: its digests are those of its evidence, and a permit for exactly them comes with AUTHORIZED. */
  lemma {:induction false} AuthorizationAccepts(r: ExecutionAuthorization)
    ensures MakeAuthorization(r).Some? <==>
      && r.validation.chainDigest == r.chainDigest && r.validation.stateDigest == r.stateDigest
      && r.decision.evidence.requestDigest == r.requestDigest && r.decision.evidence.bundleDigest == r.bundleDigest
      && r.decision.evidence.binding == r.binding && r.decision.evidence.applicability == r.applicability
      && (r.status == ExecutionAuthorized <==> r.permit.Some?)
      && (r.permit.Some? ==>
            && r.permit.value.receiptDigest == r.receiptDigest && r.permit.value.approvedStateDigest == r.approvedStateDigest
            && r.permit.value.requestDigest == r.requestDigest && r.permit.value.bundleDigest == r.bundleDigest
            && r.permit.value.chainDigest == r.chainDigest && r.permit.value.stateDigest == r.stateDigest
            && r.permit.value.decision == r.decision)
  {
  }

  // ----- Trust

  /** A verification result: a mismatch is one, and a verified artifact mismatches in nothing. */
  lemma {:induction false} VerificationAccepts(v: Verification)
    ensures MakeVerification(v).Some? <==>
      match v.status {
        case Genuine => Aimed(v.attestation, v.expectedKind, v.expectedPurpose, v.artifactDigest)
        case DigestMismatch => v.artifactDigest != v.attestation.digest
        case PurposeMismatch => v.expectedPurpose != v.attestation.purpose
        case KindMismatch => v.expectedKind != v.attestation.kind
        case _ => true
      }
  {
  }

  /** The evidence of a grant: nothing of a missing attestation, else the key and the status that the verification gives. */
  lemma {:induction false} GrantEvidenceAccepts(e: GrantEvidence)
    ensures MakeGrantEvidence(e).Some? <==>
      && (e.isRoot <==> e.rootTrusted.Some?)
      && if e.status == MissingAttestation then e.keyId.None? && e.boundPrincipal.None? && e.verification.None?
         else
           && e.verification.Some? && e.keyId == Some(e.verification.value.attestation.keyId)
           && var v := e.verification.value.status;
              match e.status {
                case UnknownSigningKey => v == UnknownKey
                case KeyNotTrustedForGrants => v == KeyNotTrusted
                case GrantArtifactMismatch => v == DigestMismatch || v == KindMismatch
                case AttestationInvalid => v == SignatureInvalid || v == PurposeMismatch || v == SchemeUnsupported
                case SignerNotBound => v == Genuine && e.boundPrincipal != Some(e.grantor)
                case UntrustedRoot => v == Genuine && e.boundPrincipal == Some(e.grantor) && e.isRoot && e.rootTrusted != Some(true)
                case Authenticated =>
                  v == Genuine && e.boundPrincipal == Some(e.grantor) && (e.isRoot ==> e.rootTrusted == Some(true))
                case _ => false
              }
  {
  }

  /** An authentication result: an authority exactly when authenticated, by complete evidence on a valid chain; else an offender. */
  lemma {:induction false} AuthenticationAccepts(r: Authentication)
    ensures MakeAuthentication(r).Some? <==>
      if r.status == Authenticated then
        && r.validation.status == Valid && r.authority.Some? && r.authority == r.validation.verified && r.offending.None?
        && r.evidence != [] && forall i :: 0 <= i < |r.evidence| ==> r.evidence[i].status == Authenticated
      else
        r.authority.None? && r.offending.Some? && (r.status == StructurallyInvalid <==> r.validation.status != Valid)
  {
    UnauthenticatedExact(r.evidence);
    hide FirstUnauthenticated;
  }

  /** A trusted authorization: its digests are those its decision was taken on. */
  lemma {:induction false} TrustedAuthorizationAccepts(r: TrustedAuthorization)
    ensures MakeTrustedAuthorization(r).Some? <==>
      && r.requestDigest == r.decision.evidence.requestDigest && r.bundleDigest == r.decision.evidence.bundleDigest
      && r.decision.evidence.applicability.Some?
      && r.decision.evidence.applicability.value.authorityDigest == r.authorityDigest
  {
  }

  /** A trusted revalidation: nothing is revalidated unless authenticated, and then on the same digests and chain. */
  lemma {:induction false} TrustedExecutionAccepts(r: TrustedExecution)
    ensures MakeTrustedExecution(r).Some? <==>
      if r.authentication.status != Authenticated then r.status == AuthenticationFailed && r.execution.None?
      else
        && r.execution.Some? && r.execution.value.validation == r.authentication.validation
        && r.execution.value.requestDigest == r.requestDigest && r.execution.value.bundleDigest == r.bundleDigest
        && r.status != AuthenticationFailed
        && (r.status == TrustedAuthorized <==> r.execution.value.status == ExecutionAuthorized)
  {
  }

  // ----- Records

  /** An execution record: its identity is its permit's, and it has exactly the reference its state asks for, nonblank. */
  lemma {:induction false} RecordAccepts(r: ExecutionRecord)
    ensures MakeRecord(r).Some? <==>
      && r.executionId == r.permitDigest
      && match r.status {
           case Reserved => r.result.None? && r.failure.None?
           case Succeeded => r.result.Some? && !Blank(r.result.value) && r.failure.None?
           case Failed => r.result.None? && r.failure.Some? && !Blank(r.failure.value)
         }
  {
  }

  /** The schema: a second row for a permit, or a row that fails a check, is refused unless its identity is taken already. */
  lemma {:induction false} InsertAccepts(table: Table, row: Row)
    ensures InsertRow(table, row).None? <==>
      && row.executionId !in table
      && (!RowChecks(row) || exists key :: key in table && table[key].permitDigest == row.permitDigest)
    ensures InsertRow(table, row).Some? ==>
              var (after, added) := InsertRow(table, row).value;
              (added <==> row.executionId !in table) && after == if added then table[row.executionId := row] else table
  {
    hide RowChecks;
  }
}
