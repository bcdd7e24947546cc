/** Structural validation of a delegation chain against supplied time and revocations (delegation.py). */
module Delegation {
  import opened Wrappers
  import opened Search
  import opened Domain
  import opened Applicability

  type Grants = seq<AuthorityGrant>

  // ----- Duplicate grant identifiers

  predicate RepeatsId(gs: Grants, i: nat) {
    i < |gs| && exists j :: 0 <= j < i && gs[j].identifier == gs[i].identifier
  }

  function FirstDuplicate(gs: Grants): (r: Option<nat>)
    ensures r.Some? ==> RepeatsId(gs, r.value) && forall j: nat :: j < r.value ==> !RepeatsId(gs, j)
    ensures r.None? ==> forall j: nat :: !RepeatsId(gs, j)
  {
    var p := (i: nat) => RepeatsId(gs, i);
    assert forall j: nat :: p(j) == RepeatsId(gs, j);
    First(|gs|, p)
  }

  predicate UniqueIds(gs: Grants) {
    forall i, j :: 0 <= i < j < |gs| ==> gs[i].identifier != gs[j].identifier
  }

  method DuplicateGrantId(gs: Grants) returns (r: Option<string>)
    ensures r.Some? <==> FirstDuplicate(gs).Some?
    ensures r.Some? ==> r.value == gs[FirstDuplicate(gs).value].identifier
    ensures r.None? <==> UniqueIds(gs)
  {
    var seen: seq<string> := [];
    for i := 0 to |gs|
      invariant |seen| == i && forall j :: 0 <= j < i ==> seen[j] == gs[j].identifier
      invariant forall j: nat :: j < i ==> !RepeatsId(gs, j)
      invariant UniqueIds(gs[..i])
    {
      if gs[i].identifier in seen {
        assert RepeatsId(gs, i);
        return Some(gs[i].identifier);
      }
      forall j | 0 <= j < i ensures gs[j].identifier != gs[i].identifier {
        assert seen[j] in seen;
      }
      seen := seen + [gs[i].identifier];
    }
    assert gs[..|gs|] == gs;
    return None;
  }

  // ----- Cycles through parent references

  predicate Names(gs: Grants, id: string, i: nat) {
    i < |gs| && gs[i].identifier == id
  }

  /** The position of the grant found for an identifier: the first that carries it. */
  function Find(gs: Grants, id: string): (r: Option<nat>)
    ensures r.Some? ==> Names(gs, id, r.value) && forall j: nat :: j < r.value ==> !Names(gs, id, j)
    ensures r.None? ==> forall j: nat :: !Names(gs, id, j)
  {
    var p := (i: nat) => Names(gs, id, i);
    assert forall j: nat :: p(j) == Names(gs, id, j);
    First(|gs|, p)
  }

  /** The parent a walk moves to. */
  function Parent(gs: Grants, i: nat): (r: Option<nat>)
    requires i < |gs|
    ensures r.Some? ==> r.value < |gs| && gs[i].parent == Some(gs[r.value].identifier)
  {
    if gs[i].parent.None? then None else Find(gs, gs[i].parent.value)
  }

  function Ids(gs: Grants): set<string> {
    set i | 0 <= i < |gs| :: gs[i].identifier
  }

  function Members(path: seq<string>): set<string> {
    set x | x in path
  }

  lemma {:induction false} FewerUnvisited(gs: Grants, current: nat, path: seq<string>)
    requires current < |gs| && gs[current].identifier !in path
    ensures |Ids(gs) - Members(path + [gs[current].identifier])| < |Ids(gs) - Members(path)|
  {
    var id := gs[current].identifier;
    assert Ids(gs) - Members(path + [id]) == Ids(gs) - Members(path) - {id};
    assert id in Ids(gs) - Members(path);
  }

  /** One walk along parent references: the identifier met twice, if any. Terminates on every grant list. */
  function Walk(gs: Grants, current: nat, path: seq<string>): Option<string>
    requires current < |gs|
    decreases |Ids(gs) - Members(path)|
  {
    var id := gs[current].identifier;
    if id in path then Some(id)
    else
      var parent := Parent(gs, current);
      if parent.None? then None
      else
        FewerUnvisited(gs, current, path);
        Walk(gs, parent.value, path + [id])
  }

  function FirstCycleFrom(gs: Grants, start: nat): Option<string>
    decreases |gs| - start
  {
    if start >= |gs| then None
    else
      var found := Walk(gs, start, []);
      if found.Some? then found else FirstCycleFrom(gs, start + 1)
  }

  function ReferenceCycleOf(gs: Grants): Option<string> {
    FirstCycleFrom(gs, 0)
  }

  method ReferenceCycle(gs: Grants) returns (r: Option<string>)
    ensures r == ReferenceCycleOf(gs)
  {
    for start := 0 to |gs|
      invariant ReferenceCycleOf(gs) == FirstCycleFrom(gs, start)
    {
      ghost var found := Walk(gs, start, []);
      var path: seq<string> := [];
      var current: nat := start;
      while true
        invariant current < |gs|
        invariant found == Walk(gs, current, path)
        decreases |Ids(gs) - Members(path)|
      {
        var id := gs[current].identifier;
        if id in path {
          return Some(id);
        }
        FewerUnvisited(gs, current, path);
        var parent := Parent(gs, current);
        if parent.None? {
          break;
        }
        path := path + [id];
        current := parent.value;
      }
    }
    return None;
  }

  // ----- Cycles through principals

  predicate RepeatsPrincipal(gs: Grants, i: nat) {
    && i < |gs|
    && (gs[i].grantee == gs[0].grantor || exists j :: 0 <= j < i && gs[j].grantee == gs[i].grantee)
  }

  function FirstRepeatedPrincipal(gs: Grants): (r: Option<nat>)
    ensures r.Some? ==> RepeatsPrincipal(gs, r.value) && forall j: nat :: j < r.value ==> !RepeatsPrincipal(gs, j)
    ensures r.None? ==> forall j: nat :: !RepeatsPrincipal(gs, j)
  {
    var p := (i: nat) => RepeatsPrincipal(gs, i);
    assert forall j: nat :: p(j) == RepeatsPrincipal(gs, j);
    First(|gs|, p)
  }

  method PrincipalCycle(gs: Grants) returns (r: Option<string>)
    requires gs != []
    ensures r.Some? <==> FirstRepeatedPrincipal(gs).Some?
    ensures r.Some? ==> r.value == gs[FirstRepeatedPrincipal(gs).value].identifier
  {
    var path := [gs[0].grantor.identifier];
    for i := 0 to |gs|
      invariant |path| == i + 1 && path[0] == gs[0].grantor.identifier
      invariant forall j :: 0 <= j < i ==> path[j + 1] == gs[j].grantee.identifier
      invariant forall j: nat :: j < i ==> !RepeatsPrincipal(gs, j)
    {
      var grantee := gs[i].grantee.identifier;
      if grantee in path {
        ghost var k :| 0 <= k < |path| && path[k] == grantee;
        assert k > 0 ==> gs[k - 1].grantee == gs[i].grantee;
        assert RepeatsPrincipal(gs, i);
        return Some(gs[i].identifier);
      }
      forall j | 0 <= j < i ensures gs[j].grantee != gs[i].grantee {
        assert path[j + 1] in path;
      }
      assert path[0] in path;
      path := path + [grantee];
    }
    return None;
  }

  // ----- The other checks, at one position of the chain

  predicate BreaksProvenance(gs: Grants, i: nat) {
    && i < |gs|
    && if i == 0 then gs[0].parent.Some?
       else gs[i].parent != Some(gs[i - 1].identifier) || gs[i - 1].grantee != gs[i].grantor
  }

  predicate Broadens(gs: Grants, i: nat) {
    0 < i < |gs| && !IsAttenuation(gs[i].scope, gs[i - 1].scope)
  }

  predicate IsRevoked(gs: Grants, state: AuthorizationState, i: nat) {
    i < |gs| && gs[i].identifier in state.revocations.grantIds
  }

  predicate NotYetValidAt(gs: Grants, state: AuthorizationState, i: nat) {
    i < |gs| && state.logicalTime < gs[i].validFrom
  }

  predicate ExpiredAt(gs: Grants, state: AuthorizationState, i: nat) {
    i < |gs| && state.logicalTime >= gs[i].validUntil
  }

  function FirstBroken(gs: Grants): (r: Option<nat>)
    ensures r.Some? ==> BreaksProvenance(gs, r.value) && forall j: nat :: j < r.value ==> !BreaksProvenance(gs, j)
    ensures r.None? ==> forall j: nat :: !BreaksProvenance(gs, j)
  {
    var p := (i: nat) => BreaksProvenance(gs, i);
    assert forall j: nat :: p(j) == BreaksProvenance(gs, j);
    First(|gs|, p)
  }

  function FirstBroadened(gs: Grants): (r: Option<nat>)
    ensures r.Some? ==> Broadens(gs, r.value) && forall j: nat :: j < r.value ==> !Broadens(gs, j)
    ensures r.None? ==> forall j: nat :: !Broadens(gs, j)
  {
    var p := (i: nat) => Broadens(gs, i);
    assert forall j: nat :: p(j) == Broadens(gs, j);
    First(|gs|, p)
  }

  function FirstRevoked(gs: Grants, state: AuthorizationState): (r: Option<nat>)
    ensures r.Some? ==> IsRevoked(gs, state, r.value) && forall j: nat :: j < r.value ==> !IsRevoked(gs, state, j)
    ensures r.None? ==> forall j: nat :: !IsRevoked(gs, state, j)
  {
    var p := (i: nat) => IsRevoked(gs, state, i);
    assert forall j: nat :: p(j) == IsRevoked(gs, state, j);
    First(|gs|, p)
  }

  function FirstNotYetValid(gs: Grants, state: AuthorizationState): (r: Option<nat>)
    ensures r.Some? ==> NotYetValidAt(gs, state, r.value) && forall j: nat :: j < r.value ==> !NotYetValidAt(gs, state, j)
    ensures r.None? ==> forall j: nat :: !NotYetValidAt(gs, state, j)
  {
    var p := (i: nat) => NotYetValidAt(gs, state, i);
    assert forall j: nat :: p(j) == NotYetValidAt(gs, state, j);
    First(|gs|, p)
  }

  function FirstExpired(gs: Grants, state: AuthorizationState): (r: Option<nat>)
    ensures r.Some? ==> ExpiredAt(gs, state, r.value) && forall j: nat :: j < r.value ==> !ExpiredAt(gs, state, j)
    ensures r.None? ==> forall j: nat :: !ExpiredAt(gs, state, j)
  {
    var p := (i: nat) => ExpiredAt(gs, state, i);
    assert forall j: nat :: p(j) == ExpiredAt(gs, state, j);
    First(|gs|, p)
  }

  // ----- Validation

  datatype ValidationStatus =
    Valid | Revoked | NotYetValid | ExpiredGrant | BroadenedAuthority | BrokenProvenance | Cycle | InvalidChain

  datatype ValidationResult = ValidationResult(
    status: ValidationStatus, chainDigest: Digest, stateDigest: Digest, offending: Option<string>,
    verified: Option<VerifiedAuthority>)

  /** Status and offending grant identifier of the first failing check; `None` when all pass. */
  function FirstFailure(gs: Grants, state: AuthorizationState): Option<(ValidationStatus, string)> {
    var duplicate := FirstDuplicate(gs);
    if duplicate.Some? then Some((InvalidChain, gs[duplicate.value].identifier)) else
    var cycle := ReferenceCycleOf(gs);
    if cycle.Some? then Some((Cycle, cycle.value)) else
    var broken := FirstBroken(gs);
    if broken.Some? then Some((BrokenProvenance, gs[broken.value].identifier)) else
    var repeated := FirstRepeatedPrincipal(gs);
    if repeated.Some? then Some((Cycle, gs[repeated.value].identifier)) else
    var broadened := FirstBroadened(gs);
    if broadened.Some? then Some((BroadenedAuthority, gs[broadened.value].identifier)) else
    var revoked := FirstRevoked(gs, state);
    if revoked.Some? then Some((Revoked, gs[revoked.value].identifier)) else
    var early := FirstNotYetValid(gs, state);
    if early.Some? then Some((NotYetValid, gs[early.value].identifier)) else
    var expired := FirstExpired(gs, state);
    if expired.Some? then Some((ExpiredGrant, gs[expired.value].identifier))
    else None
  }

  function Verified(id: Identity, chain: DelegationChain, state: AuthorizationState): VerifiedAuthority
    requires chain.grants != []
  {
    var leaf := chain.grants[|chain.grants| - 1];
    VerifiedAuthority(leaf.identifier, leaf.grantee, leaf.scope, state.logicalTime,
                      id(OfChain(chain)), id(OfState(state)))
  }

  function ValidateAuthority(id: Identity, chain: DelegationChain, state: AuthorizationState): ValidationResult
    requires chain.grants != []
  {
    var failure := FirstFailure(chain.grants, state);
    if failure.Some? then
      ValidationResult(failure.value.0, id(OfChain(chain)), id(OfState(state)), Some(failure.value.1), None)
    else
      ValidationResult(Valid, id(OfChain(chain)), id(OfState(state)), None, Some(Verified(id, chain, state)))
  }

  /** The source's loops, one early return after another. */
  method FindFailure(gs: Grants, state: AuthorizationState) returns (r: Option<(ValidationStatus, string)>)
    requires gs != []
    ensures r == FirstFailure(gs, state)
  {
    var duplicate := DuplicateGrantId(gs);
    if duplicate.Some? {
      return Some((InvalidChain, duplicate.value));
    }
    var cycle := ReferenceCycle(gs);
    if cycle.Some? {
      return Some((Cycle, cycle.value));
    }
    var link := FindBroken(gs);
    if link.Some? {
      return Some((BrokenProvenance, gs[link.value].identifier));
    }
    cycle := PrincipalCycle(gs);
    if cycle.Some? {
      return Some((Cycle, cycle.value));
    }
    var offender := FindBroadened(gs);
    if offender.Some? {
      return Some((BroadenedAuthority, gs[offender.value].identifier));
    }
    offender := FindRevoked(gs, state);
    if offender.Some? {
      return Some((Revoked, gs[offender.value].identifier));
    }
    offender := FindNotYetValid(gs, state);
    if offender.Some? {
      return Some((NotYetValid, gs[offender.value].identifier));
    }
    offender := FindExpired(gs, state);
    if offender.Some? {
      return Some((ExpiredGrant, gs[offender.value].identifier));
    }
    return None;
  }

  method FindBroken(gs: Grants) returns (r: Option<nat>)
    requires gs != []
    ensures r == FirstBroken(gs)
  {
    if gs[0].parent.Some? {
      assert BreaksProvenance(gs, 0);
      return Some(0);
    }
    for i := 1 to |gs|
      invariant forall j: nat :: j < i ==> !BreaksProvenance(gs, j)
    {
      if gs[i].parent != Some(gs[i - 1].identifier) || gs[i - 1].grantee != gs[i].grantor {
        assert BreaksProvenance(gs, i);
        return Some(i);
      }
    }
    return None;
  }

  method FindBroadened(gs: Grants) returns (r: Option<nat>)
    requires gs != []
    ensures r == FirstBroadened(gs)
  {
    for i := 1 to |gs|
      invariant forall j: nat :: j < i ==> !Broadens(gs, j)
    {
      if !IsAttenuation(gs[i].scope, gs[i - 1].scope) {
        assert Broadens(gs, i);
        return Some(i);
      }
    }
    return None;
  }

  method FindRevoked(gs: Grants, state: AuthorizationState) returns (r: Option<nat>)
    requires gs != []
    ensures r == FirstRevoked(gs, state)
  {
    for i := 0 to |gs|
      invariant forall j: nat :: j < i ==> !IsRevoked(gs, state, j)
    {
      if gs[i].identifier in state.revocations.grantIds {
        assert IsRevoked(gs, state, i);
        return Some(i);
      }
    }
    return None;
  }

  method FindNotYetValid(gs: Grants, state: AuthorizationState) returns (r: Option<nat>)
    requires gs != []
    ensures r == FirstNotYetValid(gs, state)
  {
    for i := 0 to |gs|
      invariant forall j: nat :: j < i ==> !NotYetValidAt(gs, state, j)
    {
      if state.logicalTime < gs[i].validFrom {
        assert NotYetValidAt(gs, state, i);
        return Some(i);
      }
    }
    return None;
  }

  method FindExpired(gs: Grants, state: AuthorizationState) returns (r: Option<nat>)
    requires gs != []
    ensures r == FirstExpired(gs, state)
  {
    for i := 0 to |gs|
      invariant forall j: nat :: j < i ==> !ExpiredAt(gs, state, j)
    {
      if state.logicalTime >= gs[i].validUntil {
        assert ExpiredAt(gs, state, i);
        return Some(i);
      }
    }
    return None;
  }
}
