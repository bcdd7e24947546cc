/** The gateway's mutable objects, each method against the specification of its command (integrations/nandatown/plugin.py). */
module Plugin {
  import opened Wrappers
  import opened Utf8
  import opened Domain
  import opened Approval
  import opened Policies
  import opened Execution
  import opened Authentication
  import opened Trusted
  import opened Store
  import opened PluginSpec

  /** The in-run reservation ledger. */
  class ScenarioExecutionStore {
    var records: Records

    constructor ()
      ensures records == map[]
    {
      records := map[];
    }

    /** One atomic reservation. */
    method Reserve(id: Identity, permit: ExecutionPermit) returns (r: Reservation)
      modifies `records
      ensures (records, r) == AtomicReserve(old(records), id(OfPermit(permit)))
      ensures |records| == |old(records)| + if id(OfPermit(permit)) in old(records) then 0 else 1
    {
      var executionId := id(OfPermit(permit));
      if executionId !in records {
        var record := ExecutionRecord(executionId, executionId, Reserved, None, None);
        records := records[executionId := record];
        r := Reservation(NewReservation, record);
      } else {
        var record := records[executionId];
        var status :=
          if record.status == Reserved then ExistingReserved
          else if record.status == Succeeded then AlreadySucceeded
          else FailedExisting;
        r := Reservation(status, record);
      }
    }
  }

  /** An operation awaiting approval, or holding a permit. */
  class Operation {
    const profile: Profile
    const request: AuthorizationRequest
    const receipt: DecisionReceipt
    var approval: PendingApproval
    var permit: Option<ExecutionPermit>

    constructor (s: OperationState)
      ensures State() == s
    {
      profile, request, receipt := s.profile, s.request, s.receipt;
      approval, permit := s.approval, s.permit;
    }

    function State(): OperationState
      reads this
    {
      OperationState(profile, request, receipt, approval, permit)
    }
  }

  class NestAuthzAuth {
    const id: Identity
    const material: Material
    const store: ScenarioExecutionStore
    var operations: map<string, Operation>
    var revoked: seq<string>

    /** Different names are different operations. */
    ghost predicate Separate()
      reads this
    {
      forall k, l :: k in operations && l in operations && k != l ==> operations[k] != operations[l]
    }

    ghost function States(): map<string, OperationState>
      reads this, operations.Values
    {
      map k | k in operations :: operations[k].State()
    }

    ghost function State(): PluginState
      reads this, operations.Values, store
    {
      PluginState(States(), revoked, store.records)
    }

    ghost predicate Valid()
      reads this, operations.Values, store
    {
      Separate() && ValidPlugin(material, State())
    }

    constructor (id: Identity, material: Material)
      requires ValidMaterial(material)
      ensures Valid() && fresh(store) && this.id == id && this.material == material
      ensures State() == PluginState(map[], [], map[])
    {
      this.id, this.material := id, material;
      operations, revoked := map[], [];
      store := new ScenarioExecutionStore();
      new;
      assert States() == map[];
    }

    /** `_authorize`. */
    method Authorize(sender: string, now: int, c: Command) returns (admitted: Option<bool>)
      requires Valid() && c.AuthorizeCommand?
      modifies this
      ensures Valid()
      ensures (State(), admitted) == DoAuthorize(id, material, old(State()), sender, now, c)
    {
      hide ValidMaterial, AuthorizeAction, OpenOperation, RequestFor, Blank, FindProfile;
      if Blank(c.operation) || Blank(c.profile) || Blank(c.action) || Blank(c.resource) || Blank(sender) {
        return None;
      }
      var request := RequestFor(sender, c.action, c.resource, c.amount);
      var profile := FindProfile(material.profiles, c.profile, sender);
      if profile.None? {
        return Some(false);
      }
      var decision := AuthorizeAction(id, material, request, profile.value, AuthorizationState(now, RevocationSet(revoked)));
      if decision.None? {
        return Some(false);
      }
      if decision.value.outcome == ApprovalRequired {
        var state := OpenOperation(id, profile.value, request, decision.value, now);
        if state.None? {
          return None;
        }
        OpenedFor(id, profile.value, request, decision.value, now);
        ghost var before := States();
        var operation := new Operation(state.value);
        operations := operations[c.operation := operation];
        assert States() == before[c.operation := state.value];
      }
      return Some(decision.value.outcome == Permit);
    }

    /** `_approve`. */
    method Approve(sender: string, now: int, c: Command) returns (admitted: Option<bool>)
      requires Valid() && c.ApproveCommand?
      modifies operations.Values
      ensures Valid() && operations == old(operations) && revoked == old(revoked)
      ensures (State(), admitted) == DoApprove(material, old(State()), sender, now, c)
    {
      hide ValidMaterial, Transition, Attempted, CheckApprover;
      if Blank(c.operation) {
        return None;
      }
      if c.operation !in operations || sender !in material.approvers {
        return Some(false);
      }
      if Blank(c.code) {
        return None;
      }
      var attempted := Attempted(material, c.code);
      if attempted.None? {
        return None;
      }
      var evidence := CheckApprover(Subject("agent:" + sender), material.approvers[sender], material.requirement, attempted.value);
      if evidence.status != Authorized {
        return Some(false);
      }
      var operation := operations[c.operation];
      var next := Transition(operation.approval, material.requirement, Verb.Approve(evidence), now);
      if next.Failure? {
        return None;
      }
      ghost var before := States();
      operation.approval := next.value;
      assert States() == before[c.operation := before[c.operation].(approval := next.value)];
      return Some(next.value.status == ApprovalApproved);
    }

    /** `_prepare_execution`: revoke if asked to, then revalidate and keep whatever permit there is. */
    method PrepareExecution(sender: string, now: int, c: Command) returns (admitted: Option<bool>)
      requires Valid() && (c.PrepareCommand? || c.RevokeCommand?)
      modifies this, operations.Values
      ensures Valid() && operations == old(operations)
      ensures (State(), admitted) == DoPrepare(id, material, old(State()), sender, now, c)
    {
      hide ValidMaterial, RevalidateTrusted, Revoke;
      if Blank(c.operation) {
        return None;
      }
      if sender != CONTROLLER || c.operation !in operations {
        return Some(false);
      }
      ghost var before := States();
      if c.RevokeCommand? {
        if !WellFormedRevocations(c.revocations) {
          return Some(false);
        }
        revoked := Revoke(revoked, c.revocations.value);
        assert States() == before;
      }
      var operation := operations[c.operation];
      assert before[c.operation] == operation.State();
      var current := Supplied(operation.request, material.policy.bundle, operation.profile.chain,
                              AuthorizationState(now, RevocationSet(revoked)), operation.profile.binding);
      OperationSupplied(material, State(), c.operation, now);
      var result := RevalidateTrusted(id, operation.receipt, operation.approval, current, material.policy,
                                      ProfileTrust(material, operation.profile));
      operation.permit := PermitOf(result);
      assert States() == before[c.operation := before[c.operation].(permit := PermitOf(result))];
      return Some(result.status == TrustedAuthorized && operation.permit.Some?);
    }

    /** `_reserve_execution`. */
    method ReserveExecution(sender: string, c: Command) returns (admitted: Option<bool>)
      requires Valid() && c.ReserveCommand?
      modifies store
      ensures Valid()
      ensures (State(), admitted) == DoReserve(id, old(State()), sender, c)
    {
      hide ValidMaterial, AtomicReserve;
      if Blank(c.operation) {
        return None;
      }
      if sender != CONTROLLER || c.operation !in operations || operations[c.operation].permit.None? {
        return Some(false);
      }
      ghost var before := States();
      var reservation := store.Reserve(id, operations[c.operation].permit.value);
      assert States() == before;
      return Some(reservation.status == NewReservation);
    }
  }

  lemma {:induction false} OpenedFor(id: Identity, p: Profile, request: AuthorizationRequest, d: Decision, now: int)
    ensures OpenOperation(id, p, request, d, now).Some? ==> OpenOperation(id, p, request, d, now).value.profile == p
  {
  }

  lemma {:induction false} OperationSupplied(mat: Material, s: PluginState, name: string, now: int)
    requires ValidPlugin(mat, s) && name in s.operations
    ensures var op := s.operations[name];
            ValidInputs(SuppliedFor(mat, s, op, now), mat.policy, ProfileTrust(mat, op.profile))
  {
    hide ValidBundle, ValidTrust;
  }
}
