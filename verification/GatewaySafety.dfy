/**
  What the gateway's commands mean together: whoever reserves an execution does so for an action
  that was authorized, approved by the right people and still delegated when it was prepared.
  */
module GatewaySafety {
  import opened Wrappers
  import opened Utf8
  import opened Domain
  import opened Construction
  import opened Policies
  import opened Delegation
  import opened DelegationTheorems
  import opened Evaluator
  import opened EvaluatorTotal
  import opened EvaluatorTheorems
  import opened Receipt
  import opened Approval
  import opened Execution
  import opened ExecutionTheorems
  import opened Authentication
  import opened Trusted
  import opened Store
  import opened PluginSpec
  import opened PluginTheorems

  // ----- Authorizing

  predicate WellFormedRequest(m: Sent)
    requires m.command.AuthorizeCommand?
  {
    && !Blank(m.command.operation) && !Blank(m.command.profile) && !Blank(m.command.action)
    && !Blank(m.command.resource) && !Blank(m.sender)
  }

  /** The request a message asks for: by the sending agent, for its action and resource, with its amount as context. */
  function Asked(m: Sent): AuthorizationRequest
    requires m.command.AuthorizeCommand?
  {
    var c := m.command;
    AuthorizationRequest(
      Subject("agent:" + m.sender), Action(c.action), Resource(c.resource), RequestContext([("amount", c.amount)]), None)
  }

  /** What a request to authorize is decided on, once its profile is known. */
  function Requested(mat: Material, s: PluginState, m: Sent, p: Profile): Supplied
    requires m.command.AuthorizeCommand?
  {
    Supplied(Asked(m), mat.policy.bundle, p.chain, AuthorizationState(m.now, RevocationSet(s.revoked)), p.binding)
  }

  /** A configured profile of the sender whose delegation authenticates now; otherwise everything is denied. */
  function AuthenticatedProfile(id: Identity, mat: Material, s: PluginState, m: Sent): (r: Option<Profile>)
    requires ValidMaterial(mat) && m.command.AuthorizeCommand?
    ensures r.Some? ==> r.value in mat.profiles && r.value.agentName == m.sender
  {
    var p := FindProfile(mat.profiles, m.command.profile, m.sender);
    if p.None? then None
    else if Authenticate(id, p.value.chain, StateAt(s, m.now), ProfileTrust(mat, p.value)).status != Authenticated then None
    else p
  }

  ghost function RequestedOutcome(id: Identity, mat: Material, s: PluginState, m: Sent): Outcome
    requires ValidMaterial(mat) && m.command.AuthorizeCommand?
  {
    var p := AuthenticatedProfile(id, mat, s, m);
    if p.None? then Deny
    else
      var r := Requested(mat, s, m, p.value);
      SpecOutcome(r.request, r.bundle, Some(Verified(id, r.chain, r.state)), Some(r.binding))
  }

  /** The operation's own request, policy, chain and binding, in some state. */
  function InState(mat: Material, op: OperationState, state: AuthorizationState): Supplied {
    Supplied(op.request, mat.policy.bundle, op.profile.chain, state, op.profile.binding)
  }

  /**
    An operation is about a request that needed approval under the trusted policy and the profile's
    authority, and its approval is for exactly that receipt.
    */
  ghost predicate OperationOk(id: Identity, mat: Material, op: OperationState) {
    && ValidApproval(op.approval) && op.approval.receipt == op.receipt
    && op.approval.receiptDigest == id(OfReceipt(op.receipt))
    && exists state :: IssuedFor(id, op.receipt, InState(mat, op, state))
  }

  lemma {:induction false} AuthenticatedDecision(id: Identity, mat: Material, s: PluginState, m: Sent, p: Profile)
    requires ValidMaterial(mat) && m.command.AuthorizeCommand? && p in mat.profiles
    ensures ValidSupplied(Requested(mat, s, m, p))
    ensures var r := Requested(mat, s, m, p);
            var d := AuthorizeAction(id, mat, r.request, p, r.state);
            if Authenticate(id, r.chain, r.state, ProfileTrust(mat, p)).status != Authenticated then d.None?
            else d == Some(FreshDecision(id, r)) && FreshDecision(id, r).outcome
                 == SpecOutcome(r.request, r.bundle, Some(Verified(id, r.chain, r.state)), Some(r.binding))
  {
    hide ValidBundle, ValidTrust, TryAuthenticate, ValidateAuthority, Verified, TryEvaluate, SpecOutcome, AuthorizeTrusted;
    var r := Requested(mat, s, m, p);
    AuthenticateTotal(id, r.chain, r.state, ProfileTrust(mat, p));
    FreshEvidence(id, r);
    if Authenticate(id, r.chain, r.state, ProfileTrust(mat, p)).status == Authenticated {
      AuthorizedDecision(id, r.request, mat.policy, Verified(id, r.chain, r.state), r.binding);
      OutcomeIsGatedDenyOverrides(id, r.request, r.bundle, Some(Verified(id, r.chain, r.state)), Some(r.binding));
    }
  }

  lemma {:induction false} AuthorizedDecision(
    id: Identity, request: AuthorizationRequest, policy: TrustedPolicy, authority: VerifiedAuthority,
    binding: SubjectPrincipalBinding)
    requires ValidBundle(policy.bundle)
    ensures AuthorizeTrusted(id, request, policy, authority, binding).Some?
    ensures AuthorizeTrusted(id, request, policy, authority, binding).value.decision
            == Evaluate(id, request, policy.bundle, Some(authority), Some(binding))
  {
    hide ValidBundle, Evaluate;
    AuthorizeTrustedGrants(id, request, policy, authority, binding);
  }

  /** An operation opened for a decision that requires approval is pending, and its receipt is for that decision. */
  lemma {:induction false} OpenedOk(id: Identity, mat: Material, p: Profile, r: Supplied, now: int)
    requires ValidSupplied(r) && FreshDecision(id, r).outcome == ApprovalRequired
    requires r.bundle == mat.policy.bundle && r.chain == p.chain && r.binding == p.binding
    ensures var op := OpenOperation(id, p, r.request, FreshDecision(id, r), now);
            && op.Some? && op.value.profile == p && op.value.request == r.request && op.value.permit.None?
            && OperationOk(id, mat, op.value) && op.value.approval.status == ApprovalPending
  {
    hide ValidBundle, FreshDecision, TryReceipt, CreatePending, ValidApproval, ValidReceipt, ValidDecision;
    FreshDecisionValid(id, r);
    ReceiptTotal(id, FreshDecision(id, r));
    var receipt := TryReceipt(id, FreshDecision(id, r)).value;
    CreateTotal(id, receipt, now);
    var op := OpenOperation(id, p, r.request, FreshDecision(id, r), now).value;
    assert IssuedFor(id, op.receipt, InState(mat, op, r.state));
  }

  /**
    Authorizing raises only on blank arguments. It admits the action exactly when the declarative
    outcome is PERMIT, opens an operation exactly when it is APPROVAL_REQUIRED, and changes nothing
    otherwise.
    */
  lemma {:induction false} AuthorizeMeaning(id: Identity, mat: Material, s: PluginState, m: Sent)
    requires ValidPlugin(mat, s) && m.command.AuthorizeCommand?
    ensures var (after, answer) := Execute(id, mat, s, m);
            var outcome := RequestedOutcome(id, mat, s, m);
            && (answer.None? <==> !WellFormedRequest(m))
            && (answer == Some(true) <==> WellFormedRequest(m) && outcome == Permit)
            && (WellFormedRequest(m) && outcome == ApprovalRequired ==>
                  && m.command.operation in after.operations
                  && var op := after.operations[m.command.operation];
                     && after == s.(operations := s.operations[m.command.operation := op])
                     && OperationOk(id, mat, op) && op.permit.None? && op.approval.status == ApprovalPending
                     && op.request == Asked(m)
                     && Some(op.profile) == AuthenticatedProfile(id, mat, s, m))
            && (!WellFormedRequest(m) || outcome != ApprovalRequired ==> after == s)
  {
    hide ValidBundle, ValidTrust, Authenticate, AuthorizeAction, OpenOperation, SpecOutcome, FreshDecision, OperationOk;
    AsksFor(m);
    hide RequestFor, Asked;
    var p := FindProfile(mat.profiles, m.command.profile, m.sender);
    if WellFormedRequest(m) && p.Some? {
      AuthenticatedDecision(id, mat, s, m, p.value);
      var r := Requested(mat, s, m, p.value);
      if FreshDecision(id, r).outcome == ApprovalRequired {
        OpenedOk(id, mat, p.value, r, m.now);
      }
    }
  }

  lemma {:induction false} AsksFor(m: Sent)
    requires m.command.AuthorizeCommand?
    ensures RequestFor(m.sender, m.command.action, m.command.resource, m.command.amount) == Asked(m)
  {
  }

  // ----- Approving

  /** The sender is the bound actor of a principal allowed to give the configured approval, and names it. */
  predicate MayApprove(mat: Material, m: Sent)
    requires m.command.ApproveCommand?
  {
    && m.sender in mat.approvers && m.command.code == mat.requirement.code
    && mat.approvers[m.sender].subject == Subject("agent:" + m.sender)
    && mat.approvers[m.sender].principal in mat.requirement.allowedPrincipals
  }

  function WithApproval(s: PluginState, name: string, approval: PendingApproval): PluginState
    requires name in s.operations
  {
    s.(operations := s.operations[name := s.operations[name].(approval := approval)])
  }

  /** The evidence of a sender who may approve: the bound actor on the configured requirement. */
  function ApprovalEvidence(mat: Material, m: Sent): ApproverAuthorization
    requires m.command.ApproveCommand? && m.sender in mat.approvers
  {
    ApproverAuthorization(Authorized, Subject("agent:" + m.sender), mat.approvers[m.sender], mat.requirement, mat.requirement)
  }

  /**
    A well-formed message of a sender who may approve is answered by the transition of the named
    operation: if it succeeds the operation has its result and the answer says whether the approval
    is complete, else the error is raised and nothing changes.
    */
  lemma {:induction false} ApprovingApproves(id: Identity, mat: Material, s: PluginState, m: Sent)
    requires ValidPlugin(mat, s) && m.command.ApproveCommand? && MayApprove(mat, m)
    requires !Blank(m.command.operation) && !Blank(m.command.code) && m.command.operation in s.operations
    ensures var name := m.command.operation;
            var next := Transition(s.operations[name].approval, mat.requirement, Approve(ApprovalEvidence(mat, m)), m.now);
            Execute(id, mat, s, m) == if next.Success? then
                                        (WithApproval(s, name, next.value), Some(next.value.status == ApprovalApproved))
                                      else (s, None)
  {
    hide ValidMaterial, Transition, Blank;
  }

  /** Approving changes an operation only for a sender who may, and only its approval, by one valid transition. */
  lemma {:induction false} ApproveMeaning(id: Identity, mat: Material, s: PluginState, m: Sent)
    requires ValidPlugin(mat, s) && m.command.ApproveCommand?
    ensures var (after, answer) := Execute(id, mat, s, m);
            var name := m.command.operation;
            && (answer == Some(true) || after != s ==> MayApprove(mat, m) && name in s.operations)
            && (after != s ==>
                  && name in after.operations
                  && after == WithApproval(s, name, after.operations[name].approval)
                  && exists e :: Consistent(e) && Transition(s.operations[name].approval, mat.requirement, Approve(e), m.now)
                                                  == Success(after.operations[name].approval))
            && (answer == Some(true) ==> name in after.operations && after.operations[name].approval.status == ApprovalApproved)
  {
    hide ValidMaterial, Transition;
    var c := m.command;
    if !Blank(c.operation) && c.operation in s.operations && m.sender in mat.approvers && !Blank(c.code)
       && Attempted(mat, c.code).Some? {
      var attempted := Attempted(mat, c.code).value;
      AttemptedCode(mat, c.code);
      var evidence := CheckApprover(Subject("agent:" + m.sender), mat.approvers[m.sender], mat.requirement, attempted);
      assert Consistent(evidence);
      var op := s.operations[c.operation];
      var next := Transition(op.approval, mat.requirement, Approve(evidence), m.now);
      hide Attempted, CheckApprover;
    }
  }

  lemma {:induction false} AttemptedCode(mat: Material, code: string)
    ensures Attempted(mat, code).Some? ==> Attempted(mat, code).value.code == code
  {
    hide Canonical;
  }

  // ----- Every operation of a run

  lemma {:induction false} StepOperations(id: Identity, mat: Material, s: PluginState, m: Sent, name: string)
    requires ValidPlugin(mat, s) && (forall k :: k in s.operations ==> OperationOk(id, mat, s.operations[k]))
    requires name in Execute(id, mat, s, m).0.operations
    ensures OperationOk(id, mat, Execute(id, mat, s, m).0.operations[name])
  {
    hide ValidMaterial, OperationOk, RequestedOutcome, WellFormedRequest, MayApprove, Revalidated, Revoke;
    hide AtomicReserve, DoAuthorize, DoApprove;
    if m.command.AuthorizeCommand? {
      AuthorizeMeaning(id, mat, s, m);
    } else if m.command.ApproveCommand? {
      ApproveMeaning(id, mat, s, m);
      if Execute(id, mat, s, m).0 != s {
        ApprovedOk(id, mat, s, m);
      }
    } else if m.command.ReserveCommand? {
    } else if Revalidates(s, m) {
      RevalidationStep(id, mat, s, m);
      PermitOk(id, mat, s.operations[m.command.operation], Execute(id, mat, s, m).0.operations[m.command.operation].permit);
    }
  }

  lemma {:induction false} PermitOk(id: Identity, mat: Material, op: OperationState, permit: Option<ExecutionPermit>)
    requires OperationOk(id, mat, op)
    ensures OperationOk(id, mat, op.(permit := permit))
  {
    hide ValidApproval, IssuedFor;
    var state :| IssuedFor(id, op.receipt, InState(mat, op, state));
    var after := op.(permit := permit);
    assert IssuedFor(id, after.receipt, InState(mat, after, state));
  }

  lemma {:induction false} ApprovedOk(id: Identity, mat: Material, s: PluginState, m: Sent)
    requires ValidPlugin(mat, s) && m.command.ApproveCommand? && m.command.operation in s.operations
    requires OperationOk(id, mat, s.operations[m.command.operation])
    requires Execute(id, mat, s, m).0 != s
    ensures m.command.operation in Execute(id, mat, s, m).0.operations
    ensures OperationOk(id, mat, Execute(id, mat, s, m).0.operations[m.command.operation])
  {
    hide ValidMaterial, Transition, IssuedFor, Execute, ValidApproval, Consistent;
    ApproveMeaning(id, mat, s, m);
    var op := s.operations[m.command.operation];
    var after := Execute(id, mat, s, m).0.operations[m.command.operation];
    var e :| Consistent(e) && Transition(op.approval, mat.requirement, Approve(e), m.now) == Success(after.approval);
    TransitionExact(op.approval, mat.requirement, Approve(e), m.now);
    var state :| IssuedFor(id, op.receipt, InState(mat, op, state));
    assert IssuedFor(id, after.receipt, InState(mat, after, state));
  }

  lemma {:induction false} RunOperations(id: Identity, mat: Material, run: Run, j: nat, name: string)
    requires IsRun(id, mat, run) && j < |run.states| && name in run.states[j].operations
    ensures OperationOk(id, mat, run.states[j].operations[name])
    decreases j
  {
    hide OperationOk, Execute, ValidPlugin;
    if j > 0 {
      var before := run.states[j - 1];
      forall k | k in before.operations ensures OperationOk(id, mat, before.operations[k]) {
        RunOperations(id, mat, run, j - 1, k);
      }
      StepOperations(id, mat, before, run.messages[j - 1], name);
    }
  }

  // ----- From preparation to reservation

  /** A complete approval cannot be changed any more. */
  lemma {:induction false} ApprovedIsFinal(a: PendingApproval, requirement: ApprovalRequirement, e: ApproverAuthorization, now: int)
    requires ValidApproval(a) && a.status == ApprovalApproved && Consistent(e)
    ensures Transition(a, requirement, Approve(e), now).Failure?
  {
    hide Transition, Consistent;
    TransitionExact(a, requirement, Approve(e), now);
  }

  lemma {:induction false} StepKeepsApproved(id: Identity, mat: Material, s: PluginState, m: Sent, name: string)
    requires ValidPlugin(mat, s) && !(Revalidates(s, m) && m.command.operation == name)
    requires name in s.operations && OperationOk(id, mat, s.operations[name])
    requires s.operations[name].approval.status == ApprovalApproved
    requires var after := Execute(id, mat, s, m).0; name in after.operations && after.operations[name].permit.Some?
    ensures Execute(id, mat, s, m).0.operations[name].approval == s.operations[name].approval
  {
    hide ValidMaterial, ValidApproval, IssuedFor, Execute, Consistent, Transition, Revalidates;
    OtherStepsKeepPermits(id, mat, s, m, name);
    if m.command.ApproveCommand? {
      ApproveMeaning(id, mat, s, m);
      var after := Execute(id, mat, s, m).0;
      if after != s && m.command.operation == name {
        var e :| && Consistent(e)
                 && Transition(s.operations[name].approval, mat.requirement, Approve(e), m.now)
                    == Success(after.operations[name].approval);
        ApprovedIsFinal(s.operations[name].approval, mat.requirement, e, m.now);
      }
    } else {
      OnlyApprovingApproves(id, mat, s, m, name);
    }
  }

  lemma {:induction false} OnlyApprovingApproves(id: Identity, mat: Material, s: PluginState, m: Sent, name: string)
    requires ValidPlugin(mat, s) && !m.command.ApproveCommand? && name in s.operations
    requires var after := Execute(id, mat, s, m).0; name in after.operations && after.operations[name].permit.Some?
    ensures Execute(id, mat, s, m).0.operations[name].approval == s.operations[name].approval
  {
    hide ValidMaterial, Revalidated, AuthorizeAction, TryReceipt, CreatePending, AtomicReserve, Revoke;
  }

  /** While an operation holds the permit it was prepared with, it stays the operation that was prepared. */
  lemma {:induction false} HeldOperationKept(id: Identity, mat: Material, run: Run, i: nat, j: nat, name: string)
    requires IsRun(id, mat, run) && PreparedLast(id, mat, run, i, j, name)
    requires run.states[i].operations[name].approval.status == ApprovalApproved
    ensures run.states[j].operations[name].approval == run.states[i].operations[name].approval
    decreases j
  {
    hide Execute, Revalidated, Revoke, ValidMaterial, OperationOk;
    var s, m := run.states[j - 1], run.messages[j - 1];
    if j - 1 == i {
      RevalidationStep(id, mat, s, m);
    } else {
      assert !RevalidatesNamed(run, j - 1, name);
      OtherStepsKeepPermits(id, mat, s, m, name);
      HeldOperationKept(id, mat, run, i, j - 1, name);
      RunOperations(id, mat, run, j - 1, name);
      StepKeepsApproved(id, mat, s, m, name);
    }
  }

  ghost predicate RevokesGrantOf(run: Run, k: nat, chain: DelegationChain)
    requires |run.states| == |run.messages| + 1
  {
    && k < |run.messages|
    && exists n :: 0 <= n < |chain.grants| && Revokes(run.states[k], run.messages[k], chain.grants[n].identifier)
  }

  /**
    Reserving does not look at revocations again. A grant of the chain an operation was prepared
    with is revoked by `j` exactly if a message since has revoked one for another operation.
    */
  lemma {:induction false} RevokedSincePreparation(id: Identity, mat: Material, run: Run, i: nat, j: nat, name: string)
    requires IsRun(id, mat, run) && PreparedLast(id, mat, run, i, j, name)
    ensures var chain := run.states[j].operations[name].profile.chain;
            HasRevokedGrant(chain, run.states[j].revoked)
            <==> exists k: nat :: i < k < j && RevokesGrantOf(run, k, chain) && run.messages[k].command.operation != name
  {
    hide Execute, Revalidated, Revoke, ValidMaterial, Revokes;
    var s, m := run.states[i], run.messages[i];
    var chain := run.states[j].operations[name].profile.chain;
    RevalidationStep(id, mat, s, m);
    if HasRevokedGrant(chain, WithRevocations(s, m).revoked) {
      RevokedNotAuthorized(id, mat, WithRevocations(s, m), s.operations[name], m.now);
    }
    forall n | 0 <= n < |chain.grants|
      ensures chain.grants[n].identifier in run.states[j].revoked
              <==> exists k: nat :: i < k < j && Revokes(run.states[k], run.messages[k], chain.grants[n].identifier)
    {
      RevokedExactly(id, mat, run, i + 1, j, chain.grants[n].identifier);
    }
    forall k: nat | i < k < j && RevokesGrantOf(run, k, chain) ensures run.messages[k].command.operation != name {
      RevokingRevalidates(run.states[k], run.messages[k]);
      assert !RevalidatesNamed(run, k, name);
    }
  }

  lemma {:induction false} RevokingRevalidates(s: PluginState, m: Sent)
    ensures forall grantId :: Revokes(s, m, grantId) ==> Revalidates(s, m)
  {
  }

  /** It happens: a grant revoked for one operation leaves the permit of another one reservable. */
  lemma {:induction false} RevokedElsewhereStillReserved(
    id: Identity, mat: Material, s: PluginState, name: string, other: string, grantId: string, now: int)
    requires ValidPlugin(mat, s) && name != other && name in s.operations && other in s.operations
    requires !Blank(name) && !Blank(other) && !Blank(grantId)
    requires s.operations[name].permit.Some? && id(OfPermit(s.operations[name].permit.value)) !in s.records
    requires exists n :: 0 <= n < |s.operations[name].profile.chain.grants|
                         && s.operations[name].profile.chain.grants[n].identifier == grantId
    ensures var after := Execute(id, mat, s, Sent(RevokeCommand(other, Some([grantId])), CONTROLLER, now)).0;
            && ValidPlugin(mat, after)
            && HasRevokedGrant(s.operations[name].profile.chain, after.revoked)
            && Execute(id, mat, after, Sent(ReserveCommand(name), CONTROLLER, now)).1 == Some(true)
  {
    hide ValidMaterial, Revalidated, Execute, Blank;
    var m := Sent(RevokeCommand(other, Some([grantId])), CONTROLLER, now);
    ExecuteKeepsValid(id, mat, s, m);
    RevalidationStep(id, mat, s, m);
    StepRevocations(id, mat, s, m, grantId);
    hide Revoke;
    ReserveAnswer(id, mat, Execute(id, mat, s, m).0, name, now);
  }

  lemma {:induction false} ReserveAnswer(id: Identity, mat: Material, s: PluginState, name: string, now: int)
    requires ValidPlugin(mat, s) && !Blank(name) && name in s.operations && s.operations[name].permit.Some?
    ensures Execute(id, mat, s, Sent(ReserveCommand(name), CONTROLLER, now)).1
            == Some(id(OfPermit(s.operations[name].permit.value)) !in s.records)
  {
    hide ValidMaterial, Blank;
  }

  // ----- The whole

  /**
    At message `i` the operation was fully approved by bound, allowed actors, its chain vouched for
    its request, and this permit was issued, bound to all of that.
    */
  ghost predicate SafelyPrepared(id: Identity, mat: Material, run: Run, i: nat, name: string, permit: ExecutionPermit)
    requires IsRun(id, mat, run)
  {
    && Prepared(id, mat, run, i, name, permit)
    && var op := run.states[i].operations[name];
       var current := SuppliedFor(mat, WithRevocations(run.states[i], run.messages[i]), op, run.messages[i].now);
       && current.chain.grants != [] && ChainVouchesFor(id, current, ProfileTrust(mat, op.profile))
       && |op.approval.states| == |op.receipt.approvals|
       && (forall k :: 0 <= k < |op.receipt.approvals| ==>
             ApprovedByBoundActor(op.approval.states[k], op.receipt.approvals[k]))
       && OperationOk(id, mat, op)
       && ValidSupplied(current) && PermitBinds(id, permit, op.receipt, op.approval, current)
  }

  lemma {:induction false} AuthorizedIsSafe(id: Identity, mat: Material, s: PluginState, op: OperationState, now: int)
    requires ValidMaterial(mat) && op.profile in mat.profiles && OperationOk(id, mat, op)
    requires Revalidated(id, mat, s, op, now).status == TrustedAuthorized
    ensures var current := SuppliedFor(mat, s, op, now);
            && current.chain.grants != [] && ChainVouchesFor(id, current, ProfileTrust(mat, op.profile))
            && |op.approval.states| == |op.receipt.approvals|
            && (forall k :: 0 <= k < |op.receipt.approvals| ==>
                  ApprovedByBoundActor(op.approval.states[k], op.receipt.approvals[k]))
            && op.approval.status == ApprovalApproved && ValidSupplied(current)
            && (PermitOf(Revalidated(id, mat, s, op, now)).Some? ==>
                  PermitBinds(id, PermitOf(Revalidated(id, mat, s, op, now)).value, op.receipt, op.approval, current))
  {
    hide ValidBundle, ValidTrust, TryRevalidateTrusted, Authenticate, Revalidate, ChainVouchesFor, ValidApproval, IssuedFor;
    hide ApprovedByBoundActor, SpecOutcome, SoundChain, Current, FreshDecision, PermitBinds;
    var current := SuppliedFor(mat, s, op, now);
    var t := ProfileTrust(mat, op.profile);
    RevalidateTrustedTotal(id, op.receipt, op.approval, current, mat.policy, t);
    AuthorizedChain(id, op.receipt, op.approval, current, t);
    AuthorizedExactly(id, op.receipt, op.approval, current);
    AuthorizedApprovals(id, op.receipt, op.approval);
    IssuedPermitBinds(id, op.receipt, op.approval, current);
  }

  /**
    In every run, an admitted reservation is of a permit that the last revalidation of its operation
    issued: for the same request, profile, receipt and approval the operation still has; the request
    needed approval, an allowed and bound actor had approved every requirement; and the chain was
    then sound, current, signed by its grantors back to a trusted root and wide enough for the
    request. The permit binds all of that, and no other message is admitted for its digest.
    */
  lemma {:induction false} ReservationIsSafe(id: Identity, mat: Material, run: Run, j: nat) returns (i: nat)
    requires IsRun(id, mat, run) && j < |run.messages|
    requires run.messages[j].command.ReserveCommand? && Answer(id, mat, run, j) == Some(true)
    ensures var name := run.messages[j].command.operation;
            && PreparedLast(id, mat, run, i, j, name)
            && var permit := run.states[j].operations[name].permit.value;
               && SafelyPrepared(id, mat, run, i, name, permit)
               && run.states[j].operations[name] == run.states[i].operations[name].(permit := Some(permit))
               && ReservedAt(id, mat, run, j, id(OfPermit(permit)))
               && forall k: nat :: k != j ==> !ReservedAt(id, mat, run, k, id(OfPermit(permit)))
  {
    hide Execute, ValidMaterial, OperationOk, Revalidated, ChainVouchesFor, ApprovedByBoundActor, ReservedAt, PermitBinds;
    i := ReservedOncePrepared(id, mat, run, j);
    var name := run.messages[j].command.operation;
    RunOperations(id, mat, run, i, name);
    var s, m := run.states[i], run.messages[i];
    AuthorizedIsSafe(id, mat, WithRevocations(s, m), s.operations[name], m.now);
    HeldOperationKept(id, mat, run, i, j, name);
  }
}
