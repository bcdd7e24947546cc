/**
  What one command does to the state an authorizing gateway keeps: operations awaiting approval or
  holding a permit, revoked grants and reserved executions (integrations/nandatown/plugin.py,
  adapter.py:195-275).
  */
module PluginSpec {
  import opened Wrappers
  import opened Ordering
  import opened Utf8
  import opened Domain
  import opened Policies
  import opened Receipt
  import opened Approval
  import opened Execution
  import opened Attestation
  import opened Authentication
  import opened Trusted
  import opened Store

  datatype Profile = Profile(
    identifier: string, agentName: string, chain: DelegationChain, attestations: seq<GrantAttestation>,
    binding: SubjectPrincipalBinding)

  /** The trusted configuration. */
  datatype Material = Material(
    policy: TrustedPolicy, store: TrustStore, registry: seq<KeyBinding>, roots: seq<Principal>,
    profiles: seq<Profile>, requirement: ApprovalRequirement, approvers: map<string, ApproverBinding>)

  function ProfileTrust(mat: Material, p: Profile): Trust {
    Trust(p.attestations, mat.store, mat.registry, mat.roots)
  }

  ghost predicate ValidMaterial(mat: Material) {
    && ValidBundle(mat.policy.bundle)
    && forall p :: p in mat.profiles ==> p.chain.grants != [] && ValidTrust(ProfileTrust(mat, p))
  }

  /** One operation as it stands. */
  datatype OperationState = OperationState(
    profile: Profile, request: AuthorizationRequest, receipt: DecisionReceipt, approval: PendingApproval,
    permit: Option<ExecutionPermit>)

  datatype PluginState = PluginState(
    operations: map<string, OperationState>, revoked: seq<string>, records: Records)

  ghost predicate ValidPlugin(mat: Material, s: PluginState) {
    ValidMaterial(mat) && forall k :: k in s.operations ==> s.operations[k].profile in mat.profiles
  }

  const CONTROLLER := "scenario-controller"

  datatype Command =
    | AuthorizeCommand(operation: string, profile: string, action: string, resource: string, amount: Scalar)
    | ApproveCommand(operation: string, code: string)
    | PrepareCommand(operation: string)
    | RevokeCommand(operation: string, revocations: Option<seq<string>>)
    | ReserveCommand(operation: string)

  /** A command, who sent it, and the logical time. */
  datatype Sent = Sent(command: Command, sender: string, now: int)

  /** The new state, and whether the message is admitted; `None` for a raised error. */
  type Reply = (PluginState, Option<bool>)

  // ----- Authorizing

  function FindProfile(ps: seq<Profile>, identifier: string, agentName: string): (r: Option<Profile>)
    ensures r.Some? ==> r.value in ps && r.value.identifier == identifier && r.value.agentName == agentName
    ensures r.Some? ==> exists i :: && 0 <= i < |ps| && ps[i] == r.value
                                    && forall j :: 0 <= j < i ==> ps[j].identifier != identifier || ps[j].agentName != agentName
    ensures r.None? ==> forall p :: p in ps ==> p.identifier != identifier || p.agentName != agentName
  {
    if ps == [] then None
    else if ps[0].identifier == identifier && ps[0].agentName == agentName then Some(ps[0])
    else FindProfile(ps[1..], identifier, agentName)
  }

  function RequestFor(agentName: string, action: string, resource: string, amount: Scalar): AuthorizationRequest {
    AuthorizationRequest(Subject("agent:" + agentName), Action(action), Resource(resource),
                         RequestContext([("amount", amount)]), None)
  }

  function StateAt(s: PluginState, now: int): AuthorizationState {
    AuthorizationState(now, RevocationSet(s.revoked))
  }

  /** `authorize_action`: the decision, if the profile exists and its delegation authenticates. */
  function AuthorizeAction(id: Identity, mat: Material, request: AuthorizationRequest, p: Profile, state: AuthorizationState)
    : Option<Decision>
    requires ValidMaterial(mat) && p in mat.profiles
  {
    var authentication := Authenticate(id, p.chain, state, ProfileTrust(mat, p));
    if authentication.status != Authenticated then None
    else
      var authority :- authentication.authority;
      var trusted :- AuthorizeTrusted(id, request, mat.policy, authority, p.binding);
      Some(trusted.decision)
  }

  /** The operation opened when approval is required. */
  function OpenOperation(id: Identity, p: Profile, request: AuthorizationRequest, d: Decision, now: int): Option<OperationState> {
    var receipt :- TryReceipt(id, d);
    var approval :- CreatePending(id, receipt, now);
    Some(OperationState(p, request, receipt, approval, None))
  }

  function DoAuthorize(id: Identity, mat: Material, s: PluginState, sender: string, now: int, c: Command): Reply
    requires ValidPlugin(mat, s) && c.AuthorizeCommand?
  {
    if Blank(c.operation) || Blank(c.profile) || Blank(c.action) || Blank(c.resource) || Blank(sender) then (s, None)
    else
      var request := RequestFor(sender, c.action, c.resource, c.amount);
      var p := FindProfile(mat.profiles, c.profile, sender);
      if p.None? then (s, Some(false))
      else
        var d := AuthorizeAction(id, mat, request, p.value, StateAt(s, now));
        if d.None? then (s, Some(false))
        else if d.value.outcome == ApprovalRequired then
          var op := OpenOperation(id, p.value, request, d.value, now);
          if op.None? then (s, None)
          else (s.(operations := s.operations[c.operation := op.value]), Some(false))
        else (s, Some(d.value.outcome == Permit))
  }

  // ----- Approving

  /** The configured requirement when its code is given, else another one with that code. */
  function Attempted(mat: Material, code: string): Option<ApprovalRequirement> {
    if code == mat.requirement.code then Some(mat.requirement)
    else MakeRequirement(code, mat.requirement.allowedPrincipals, [])
  }

  function DoApprove(mat: Material, s: PluginState, sender: string, now: int, c: Command): Reply
    requires c.ApproveCommand?
  {
    if Blank(c.operation) then (s, None)
    else if c.operation !in s.operations || sender !in mat.approvers then (s, Some(false))
    else if Blank(c.code) then (s, None)
    else
      var attempted := Attempted(mat, c.code);
      if attempted.None? then (s, None)
      else
        var evidence := CheckApprover(Subject("agent:" + sender), mat.approvers[sender], mat.requirement, attempted.value);
        if evidence.status != Authorized then (s, Some(false))
        else
          var op := s.operations[c.operation];
          var next := Transition(op.approval, mat.requirement, Approve(evidence), now);
          if next.Failure? then (s, None)
          else
            (s.(operations := s.operations[c.operation := op.(approval := next.value)]),
             Some(next.value.status == ApprovalApproved))
  }

  // ----- Preparing

  /** The set of revoked grants, kept sorted as a revocation set sorts them. */
  function Revoke(revoked: seq<string>, more: seq<string>): (r: seq<string>)
    ensures forall x :: x in revoked || x in more ==> x in r
    ensures forall x :: x in r ==> x in revoked || x in more
    ensures Ascending(BytesLess, revoked) ==> Ascending(BytesLess, r)
    decreases |more|
  {
    if more == [] then revoked
    else
      var next := if more[0] in revoked then revoked else Insert(BytesLess, more[0], revoked);
      assert forall x :: x in next <==> x in revoked || x == more[0] by {
        InsertMembers(more[0], revoked);
      }
      assert Ascending(BytesLess, revoked) ==> Ascending(BytesLess, next) by {
        InsertSorted(more[0], revoked);
      }
      Revoke(next, more[1..])
  }

  lemma {:induction false} InsertMembers(x: string, s: seq<string>)
    ensures forall y :: y in Insert(BytesLess, x, s) <==> y == x || y in s
  {
    SameMembers(Insert(BytesLess, x, s), [x] + s);
  }

  lemma {:induction false} InsertSorted(x: string, s: seq<string>)
    ensures Ascending(BytesLess, s) && x !in s ==> Ascending(BytesLess, Insert(BytesLess, x, s))
  {
    if Ascending(BytesLess, s) && x !in s {
      BytesLessStrict();
      forall y | y in s ensures BytesLess(x, y) || BytesLess(y, x) {
        BytesLessTotal(x, y);
      }
      InsertAscending(BytesLess, x, s);
    }
  }

  predicate WellFormedRevocations(revocations: Option<seq<string>>) {
    revocations.Some? && forall i :: 0 <= i < |revocations.value| ==> !Blank(revocations.value[i])
  }

  function SuppliedFor(mat: Material, s: PluginState, op: OperationState, now: int): Supplied {
    Supplied(op.request, mat.policy.bundle, op.profile.chain, StateAt(s, now), op.profile.binding)
  }

  function Revalidated(id: Identity, mat: Material, s: PluginState, op: OperationState, now: int): TrustedExecution
    requires ValidMaterial(mat) && op.profile in mat.profiles
  {
    RevalidateTrusted(id, op.receipt, op.approval, SuppliedFor(mat, s, op, now), mat.policy, ProfileTrust(mat, op.profile))
  }

  function PermitOf(r: TrustedExecution): Option<ExecutionPermit> {
    if r.execution.None? then None else r.execution.value.permit
  }

  function DoRevalidate(id: Identity, mat: Material, s: PluginState, now: int, name: string): Reply
    requires ValidPlugin(mat, s) && name in s.operations
  {
    var op := s.operations[name];
    var r := Revalidated(id, mat, s, op, now);
    (s.(operations := s.operations[name := op.(permit := PermitOf(r))]),
     Some(r.status == TrustedAuthorized && PermitOf(r).Some?))
  }

  function DoPrepare(id: Identity, mat: Material, s: PluginState, sender: string, now: int, c: Command): Reply
    requires ValidPlugin(mat, s) && (c.PrepareCommand? || c.RevokeCommand?)
  {
    if Blank(c.operation) then (s, None)
    else if sender != CONTROLLER || c.operation !in s.operations then (s, Some(false))
    else if c.PrepareCommand? then DoRevalidate(id, mat, s, now, c.operation)
    else if !WellFormedRevocations(c.revocations) then (s, Some(false))
    else DoRevalidate(id, mat, s.(revoked := Revoke(s.revoked, c.revocations.value)), now, c.operation)
  }

  // ----- Reserving

  function DoReserve(id: Identity, s: PluginState, sender: string, c: Command): Reply
    requires c.ReserveCommand?
  {
    if Blank(c.operation) then (s, None)
    else if sender != CONTROLLER || c.operation !in s.operations || s.operations[c.operation].permit.None? then (s, Some(false))
    else
      var (after, reservation) := AtomicReserve(s.records, id(OfPermit(s.operations[c.operation].permit.value)));
      (s.(records := after), Some(reservation.status == NewReservation))
  }

  /** Any command. */
  function Execute(id: Identity, mat: Material, s: PluginState, m: Sent): Reply
    requires ValidPlugin(mat, s)
  {
    match m.command
    case AuthorizeCommand(_, _, _, _, _) => DoAuthorize(id, mat, s, m.sender, m.now, m.command)
    case ApproveCommand(_, _) => DoApprove(mat, s, m.sender, m.now, m.command)
    case PrepareCommand(_) => DoPrepare(id, mat, s, m.sender, m.now, m.command)
    case RevokeCommand(_, _) => DoPrepare(id, mat, s, m.sender, m.now, m.command)
    case ReserveCommand(_) => DoReserve(id, s, m.sender, m.command)
  }
}
