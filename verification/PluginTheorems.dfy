/** Whole runs of gateway commands. */
module PluginTheorems {
  import opened Wrappers
  import opened Ordering
  import opened Utf8
  import opened Domain
  import opened Policies
  import opened DelegationTheorems
  import opened Receipt
  import opened Approval
  import opened Execution
  import opened Authentication
  import opened Trusted
  import opened Store
  import opened PluginSpec

  /** The states of a run, one more than the messages that caused them. */
  datatype Run = Run(states: seq<PluginState>, messages: seq<Sent>)

  ghost predicate IsRun(id: Identity, mat: Material, run: Run) {
    && ValidMaterial(mat)
    && |run.states| == |run.messages| + 1
    && run.states[0] == PluginState(map[], [], map[])
    && (forall i :: 0 <= i < |run.states| ==> ValidPlugin(mat, run.states[i]))
    && forall i :: 0 <= i < |run.messages| ==> Execute(id, mat, run.states[i], run.messages[i]).0 == run.states[i + 1]
  }

  /** Every command keeps what `IsRun` asks of a state, so every sequence of messages has a run. */
  lemma {:induction false} ExecuteKeepsValid(id: Identity, mat: Material, s: PluginState, m: Sent)
    requires ValidPlugin(mat, s)
    ensures ValidPlugin(mat, Execute(id, mat, s, m).0)
  {
    hide ValidMaterial, Revalidated, AuthorizeAction, TryReceipt, CreatePending, Transition, AtomicReserve, Revoke, Attempted;
  }

  /** The answer to message `i`. */
  function Answer(id: Identity, mat: Material, run: Run, i: nat): Option<bool>
    requires IsRun(id, mat, run) && i < |run.messages|
  {
    Execute(id, mat, run.states[i], run.messages[i]).1
  }

  // ----- Revocations

  /** The message revokes this grant: the controller names it in a revocation for an operation there is. */
  predicate Revokes(s: PluginState, m: Sent, grantId: string) {
    m.command.RevokeCommand? && Revalidates(s, m) && grantId in m.command.revocations.value
  }

  lemma {:induction false} StepRevocations(id: Identity, mat: Material, s: PluginState, m: Sent, grantId: string)
    requires ValidPlugin(mat, s)
    ensures grantId in Execute(id, mat, s, m).0.revoked <==> grantId in s.revoked || Revokes(s, m, grantId)
  {
    hide ValidMaterial, Revalidated, AuthorizeAction, OpenOperation, Transition, AtomicReserve, Attempted, CheckApprover;
  }

  /** A grant is revoked exactly if it was before or a message since has revoked it: nothing is ever taken back. */
  lemma {:induction false} RevokedExactly(id: Identity, mat: Material, run: Run, i: nat, j: nat, grantId: string)
    requires IsRun(id, mat, run) && i <= j < |run.states|
    ensures grantId in run.states[j].revoked
            <==> || grantId in run.states[i].revoked
                 || exists k: nat :: i <= k < j && Revokes(run.states[k], run.messages[k], grantId)
    decreases j
  {
    hide Execute, ValidPlugin, Revokes;
    if i < j {
      RevokedExactly(id, mat, run, i, j - 1, grantId);
      StepRevocations(id, mat, run.states[j - 1], run.messages[j - 1], grantId);
    }
  }

  lemma {:induction false} StepSorted(id: Identity, mat: Material, s: PluginState, m: Sent)
    requires ValidPlugin(mat, s) && Ascending(BytesLess, s.revoked)
    ensures Ascending(BytesLess, Execute(id, mat, s, m).0.revoked)
  {
    hide ValidMaterial, Revalidated, AuthorizeAction, OpenOperation, Transition, AtomicReserve, Attempted, CheckApprover;
    hide BytesLess;
  }

  /** In every run the revoked grants are kept as the strictly sorted tuple of a revocation set. */
  lemma {:induction false} RevocationsSorted(id: Identity, mat: Material, run: Run, j: nat)
    requires IsRun(id, mat, run) && j < |run.states|
    ensures Ascending(BytesLess, run.states[j].revoked)
    decreases j
  {
    hide Execute, ValidPlugin, BytesLess;
    if j > 0 {
      RevocationsSorted(id, mat, run, j - 1);
      StepSorted(id, mat, run.states[j - 1], run.messages[j - 1]);
    }
  }

  /** The message reaches revalidation of the named operation. */
  predicate Revalidates(s: PluginState, m: Sent) {
    && (m.command.PrepareCommand? || (m.command.RevokeCommand? && WellFormedRevocations(m.command.revocations)))
    && !Blank(m.command.operation) && m.sender == CONTROLLER && m.command.operation in s.operations
  }

  /** The state in which it is revalidated: with the revocations it brings. */
  function WithRevocations(s: PluginState, m: Sent): PluginState
    requires Revalidates(s, m)
  {
    if m.command.RevokeCommand? then s.(revoked := Revoke(s.revoked, m.command.revocations.value)) else s
  }

  lemma {:induction false} RevalidationStep(id: Identity, mat: Material, s: PluginState, m: Sent)
    requires ValidPlugin(mat, s) && Revalidates(s, m)
    ensures var op := s.operations[m.command.operation];
            var r := Revalidated(id, mat, WithRevocations(s, m), op, m.now);
            var (after, answer) := Execute(id, mat, s, m);
            && after == WithRevocations(s, m).(operations := s.operations[m.command.operation := op.(permit := PermitOf(r))])
            && answer == Some(r.status == TrustedAuthorized && PermitOf(r).Some?)
  {
    hide ValidMaterial, Revalidated, Revoke;
  }

  ghost predicate HasRevokedGrant(chain: DelegationChain, revoked: seq<string>) {
    exists i :: 0 <= i < |chain.grants| && chain.grants[i].identifier in revoked
  }

  /** Revalidating with a revoked grant in the chain refuses, and clears any permit held. */
  lemma {:induction false} RevocationClearsPermit(id: Identity, mat: Material, s: PluginState, m: Sent)
    requires ValidPlugin(mat, s) && Revalidates(s, m)
    requires HasRevokedGrant(s.operations[m.command.operation].profile.chain, Execute(id, mat, s, m).0.revoked)
    ensures var (after, answer) := Execute(id, mat, s, m);
            && m.command.operation in after.operations
            && after.operations[m.command.operation].permit.None? && answer == Some(false)
  {
    hide ValidMaterial, Revalidated, Revoke, Execute;
    RevalidationStep(id, mat, s, m);
    var op := s.operations[m.command.operation];
    var w := WithRevocations(s, m);
    RevokedNotAuthorized(id, mat, w, op, m.now);
  }

  lemma {:induction false} RevokedNotAuthorized(id: Identity, mat: Material, s: PluginState, op: OperationState, now: int)
    requires ValidMaterial(mat) && op.profile in mat.profiles && HasRevokedGrant(op.profile.chain, s.revoked)
    ensures var r := Revalidated(id, mat, s, op, now);
            r.status == AuthenticationFailed && PermitOf(r).None?
  {
    hide ValidBundle, ValidTrust, TryRevalidateTrusted, SoundChain, SameGrantIds, SignedByGrantor, Authenticate;
    var current := SuppliedFor(mat, s, op, now);
    var t := ProfileTrust(mat, op.profile);
    AuthenticatedExactly(id, current.chain, current.state, t);
    RevalidateTrustedTotal(id, op.receipt, op.approval, current, mat.policy, t);
  }

  // ----- Permits

  /** Message `i` prepared this permit for the operation: an authorized trusted revalidation issued it. */
  ghost predicate Prepared(id: Identity, mat: Material, run: Run, i: nat, name: string, permit: ExecutionPermit)
    requires IsRun(id, mat, run)
  {
    && i < |run.messages| && Revalidates(run.states[i], run.messages[i]) && run.messages[i].command.operation == name
    && Answer(id, mat, run, i) == Some(true)
    && var s, m := run.states[i], run.messages[i];
       var r := Revalidated(id, mat, WithRevocations(s, m), s.operations[name], m.now);
       r.status == TrustedAuthorized && PermitOf(r) == Some(permit)
  }

  lemma {:induction false} OtherStepsKeepPermits(id: Identity, mat: Material, s: PluginState, m: Sent, name: string)
    requires ValidPlugin(mat, s) && !(Revalidates(s, m) && m.command.operation == name)
    requires var after := Execute(id, mat, s, m).0; name in after.operations && after.operations[name].permit.Some?
    ensures var after := Execute(id, mat, s, m).0;
            name in s.operations && after.operations[name] == s.operations[name].(approval := after.operations[name].approval)
  {
    hide ValidMaterial, Revalidated, AuthorizeAction, TryReceipt, CreatePending, Transition, AtomicReserve, Revoke;
    hide Attempted, CheckApprover;
  }

  lemma {:induction false} PermitOnlyWhenAuthorized(id: Identity, mat: Material, s: PluginState, op: OperationState, now: int)
    requires ValidMaterial(mat) && op.profile in mat.profiles
    ensures PermitOf(Revalidated(id, mat, s, op, now)).Some? <==> Revalidated(id, mat, s, op, now).status == TrustedAuthorized
  {
    hide ValidBundle, ValidTrust, TryRevalidateTrusted, TryRevalidate, FreshDecision, FreshValidation, Cascade, Authenticate;
    var current := SuppliedFor(mat, s, op, now);
    RevalidateTrustedTotal(id, op.receipt, op.approval, current, mat.policy, ProfileTrust(mat, op.profile));
    RevalidateTotal(id, op.receipt, op.approval, current);
  }

  /** The message has the named operation revalidated. */
  predicate RevalidatesNamed(run: Run, k: nat, name: string)
    requires |run.states| == |run.messages| + 1
  {
    k < |run.messages| && Revalidates(run.states[k], run.messages[k]) && run.messages[k].command.operation == name
  }

  /**
    Message `i` issued the permit the operation holds at `j`, the operation still has the profile,
    request and receipt it had then, and it has not been revalidated in between.
    */
  ghost predicate PreparedLast(id: Identity, mat: Material, run: Run, i: nat, j: nat, name: string)
    requires IsRun(id, mat, run)
  {
    && i < j < |run.states| && name in run.states[j].operations && run.states[j].operations[name].permit.Some?
    && Prepared(id, mat, run, i, name, run.states[j].operations[name].permit.value)
    && (forall k: nat :: i < k < j ==> !RevalidatesNamed(run, k, name))
    && var before, held := run.states[i].operations[name], run.states[j].operations[name];
       held == before.(approval := held.approval, permit := held.permit)
  }

  /** A permit an operation holds was issued by its last revalidation, for this very operation. */
  lemma {:induction false} HeldPermitPrepared(id: Identity, mat: Material, run: Run, j: nat, name: string)
    returns (i: nat)
    requires IsRun(id, mat, run) && j < |run.states|
    requires name in run.states[j].operations && run.states[j].operations[name].permit.Some?
    ensures PreparedLast(id, mat, run, i, j, name)
    decreases j
  {
    hide Execute, Revalidated, Revoke, ValidMaterial;
    var s, m := run.states[j - 1], run.messages[j - 1];
    if RevalidatesNamed(run, j - 1, name) {
      i := j - 1;
      RevalidationStep(id, mat, s, m);
      PermitOnlyWhenAuthorized(id, mat, WithRevocations(s, m), s.operations[name], m.now);
    } else {
      OtherStepsKeepPermits(id, mat, s, m, name);
      i := HeldPermitPrepared(id, mat, run, j - 1, name);
    }
  }

  // ----- Reservations

  /** Message `j` reserved a permit with this digest for the first time, and was admitted. */
  ghost predicate ReservedAt(id: Identity, mat: Material, run: Run, j: nat, digest: Digest)
    requires IsRun(id, mat, run)
  {
    && j < |run.messages| && run.messages[j].command.ReserveCommand? && Answer(id, mat, run, j) == Some(true)
    && var name := run.messages[j].command.operation;
       && name in run.states[j].operations && run.states[j].operations[name].permit.Some?
       && id(OfPermit(run.states[j].operations[name].permit.value)) == digest
  }

  /** Records change only by an admitted reservation, which adds the one record of its permit. */
  lemma {:induction false} StepRecords(id: Identity, mat: Material, s: PluginState, m: Sent)
    requires ValidPlugin(mat, s)
    ensures var (after, answer) := Execute(id, mat, s, m);
            if m.command.ReserveCommand? && answer == Some(true) then
              && m.command.operation in s.operations && s.operations[m.command.operation].permit.Some?
              && var digest := id(OfPermit(s.operations[m.command.operation].permit.value));
                 digest !in s.records && after.records == s.records[digest := NewRecord(digest)]
            else after.records == s.records
  {
    hide ValidMaterial, Revalidated, AuthorizeAction, OpenOperation, Transition, Revoke, Attempted, CheckApprover;
  }

  /** The digests reserved by the first `j` messages. */
  ghost function ReservedDigests(id: Identity, mat: Material, run: Run, j: nat): set<Digest>
    requires IsRun(id, mat, run) && j <= |run.messages|
  {
    if j == 0 then {}
    else
      var before := ReservedDigests(id, mat, run, j - 1);
      var m := run.messages[j - 1];
      if m.command.ReserveCommand? && Answer(id, mat, run, j - 1) == Some(true) then
        StepRecords(id, mat, run.states[j - 1], m);
        before + {id(OfPermit(run.states[j - 1].operations[m.command.operation].permit.value))}
      else before
  }

  /** The number of reservations the first `j` messages were admitted for. */
  ghost function Admitted(id: Identity, mat: Material, run: Run, j: nat): nat
    requires IsRun(id, mat, run) && j <= |run.messages|
  {
    if j == 0 then 0
    else
      Admitted(id, mat, run, j - 1)
      + if run.messages[j - 1].command.ReserveCommand? && Answer(id, mat, run, j - 1) == Some(true) then 1 else 0
  }

  /** At any time the ledger holds exactly the permits reserved so far, as many as there were admitted reservations. */
  lemma {:induction false} LedgerIsReservations(id: Identity, mat: Material, run: Run, j: nat)
    requires IsRun(id, mat, run) && j < |run.states|
    ensures run.states[j].records.Keys == ReservedDigests(id, mat, run, j)
    ensures |run.states[j].records| == Admitted(id, mat, run, j)
    decreases j
  {
    hide Execute, ValidPlugin;
    if j > 0 {
      LedgerIsReservations(id, mat, run, j - 1);
      StepRecords(id, mat, run.states[j - 1], run.messages[j - 1]);
      var before, after := run.states[j - 1].records, run.states[j].records;
      if before != after {
        var d := id(OfPermit(run.states[j - 1].operations[run.messages[j - 1].command.operation].permit.value));
        assert after.Keys == before.Keys + {d} && d !in before.Keys;
        assert |after| == |after.Keys| && |before| == |before.Keys|;
      }
    }
  }

  lemma {:induction false} RecordsStay(id: Identity, mat: Material, run: Run, i: nat, j: nat, digest: Digest)
    requires IsRun(id, mat, run) && i <= j < |run.states| && digest in run.states[i].records
    ensures digest in run.states[j].records
    decreases j
  {
    hide Execute, ValidPlugin;
    if i < j {
      RecordsStay(id, mat, run, i, j - 1, digest);
      StepRecords(id, mat, run.states[j - 1], run.messages[j - 1]);
    }
  }

  /**
    Every admitted reservation is of a permit that the last revalidation of the same operation
    issued, and no permit digest is admitted twice.
    */
  lemma {:induction false} ReservedOncePrepared(id: Identity, mat: Material, run: Run, j: nat) returns (i: nat)
    requires IsRun(id, mat, run) && j < |run.messages|
    requires run.messages[j].command.ReserveCommand? && Answer(id, mat, run, j) == Some(true)
    ensures var name := run.messages[j].command.operation;
            && PreparedLast(id, mat, run, i, j, name)
            && var permit := run.states[j].operations[name].permit.value;
               && ReservedAt(id, mat, run, j, id(OfPermit(permit)))
               && forall k: nat :: k != j ==> !ReservedAt(id, mat, run, k, id(OfPermit(permit)))
  {
    hide Execute, PreparedLast, ValidPlugin;
    StepRecords(id, mat, run.states[j], run.messages[j]);
    var name := run.messages[j].command.operation;
    i := HeldPermitPrepared(id, mat, run, j, name);
    var digest := id(OfPermit(run.states[j].operations[name].permit.value));
    forall k: nat | k != j ensures !ReservedAt(id, mat, run, k, digest) {
      if ReservedAt(id, mat, run, k, digest) {
        StepRecords(id, mat, run.states[k], run.messages[k]);
        RecordsStay(id, mat, run, if k < j then k + 1 else j + 1, if k < j then j else k, digest);
      }
    }
  }
}
