/** Authenticating the provenance of a structurally valid chain (authenticated_delegation.py, domain.py:646-720, 1029-1388). */
module Authentication {
  import opened Wrappers
  import opened Ordering
  import opened Domain
  import opened Construction
  import opened Delegation
  import opened DelegationTheorems
  import opened Attestation

  datatype KeyBinding = KeyBinding(principal: Principal, keyId: string)
  datatype GrantAttestation = GrantAttestation(grantId: string, attestation: ArtifactAttestation)

  /** What the relying party configures, and the attestations it was handed. */
  datatype Trust = Trust(
    attestations: seq<GrantAttestation>, store: TrustStore, registry: seq<KeyBinding>, roots: seq<Principal>)

  predicate UniqueAttestations(es: seq<GrantAttestation>) {
    forall i, j :: 0 <= i < j < |es| ==> es[i].grantId != es[j].grantId
  }

  /** No principal has two keys and no key two principals. */
  predicate OneToOne(bs: seq<KeyBinding>) {
    forall i, j :: 0 <= i < j < |bs| ==> bs[i].principal != bs[j].principal && bs[i].keyId != bs[j].keyId
  }

  /** What the constructors of the four collections establish. */
  predicate ValidTrust(t: Trust) {
    UniqueAttestations(t.attestations) && ValidStore(t.store) && OneToOne(t.registry)
  }

  function PrincipalIdOf(b: KeyBinding): string { b.principal.identifier }

  function BoundKeyOf(b: KeyBinding): string { b.keyId }

  function GrantIdOf(e: GrantAttestation): string { e.grantId }

  /** The constructor of the registry: a repeated principal or key is refused, the rest is sorted. */
  function MakeRegistry(bindings: seq<KeyBinding>): Option<seq<KeyBinding>> {
    if OneToOne(bindings) then Some(Sort(ByKey(PrincipalIdOf), bindings)) else None
  }

  method BuildRegistry(bindings: seq<KeyBinding>) returns (r: Option<seq<KeyBinding>>)
    ensures r == MakeRegistry(bindings)
  {
    var principals: set<string> := {};
    var keyIds: set<string> := {};
    for i := 0 to |bindings|
      invariant principals == set j | 0 <= j < i :: bindings[j].principal.identifier
      invariant keyIds == set j | 0 <= j < i :: bindings[j].keyId
      invariant OneToOne(bindings[..i])
    {
      var binding := bindings[i];
      if binding.principal.identifier in principals {
        return None;
      }
      if binding.keyId in keyIds {
        return None;
      }
      principals := principals + {binding.principal.identifier};
      keyIds := keyIds + {binding.keyId};
    }
    assert bindings[..|bindings|] == bindings;
    return Some(Sort(ByKey(PrincipalIdOf), bindings));
  }

  lemma {:induction false} OneToOneKeys(bs: seq<KeyBinding>)
    ensures OneToOne(bs) <==> DistinctKeys(PrincipalIdOf, bs) && DistinctKeys(BoundKeyOf, bs)
  {
    assert forall b :: PrincipalIdOf(b) == b.principal.identifier && BoundKeyOf(b) == b.keyId;
  }

  lemma {:induction false} DistinctPermuted<T(!new)>(key: T -> string, xs: seq<T>, ys: seq<T>)
    requires multiset(xs) == multiset(ys) && DistinctKeys(key, xs)
    ensures DistinctKeys(key, ys)
  {
    ByKeyStrict(key);
    DistinctIsComparable(key, xs);
    DistinctIsComparable(key, ys);
    ComparablePermuted(ByKey(key), xs, ys);
  }

  /** Trust inputs that their constructors accepted are valid, and hold what was supplied. */
  lemma {:induction false} ConstructedTrustValid(
    entries: seq<GrantAttestation>, keys: seq<TrustedKey>, bindings: seq<KeyBinding>, roots: seq<Principal>)
    requires Canonical(GrantIdOf, entries).Some? && MakeTrustStore(keys).Some? && MakeRegistry(bindings).Some?
    ensures var t := Trust(Canonical(GrantIdOf, entries).value, MakeTrustStore(keys).value, MakeRegistry(bindings).value, roots);
            && ValidTrust(t)
            && (forall e :: e in t.attestations <==> e in entries)
            && (forall k :: k in t.store.keys <==> k in keys)
            && (forall b :: b in t.registry <==> b in bindings)
  {
    var registry := MakeRegistry(bindings).value;
    CanonicalAscending(GrantIdOf, entries);
    AscendingDistinct(GrantIdOf, Canonical(GrantIdOf, entries).value);
    MadeStoreValid(keys);
    OneToOneKeys(bindings);
    DistinctPermuted(PrincipalIdOf, bindings, registry);
    DistinctPermuted(BoundKeyOf, bindings, registry);
    OneToOneKeys(registry);
    SameMembers(bindings, registry);
  }

  datatype AuthenticationStatus =
    | Authenticated | MissingAttestation | AttestationInvalid | SignerNotBound | UntrustedRoot | UnknownSigningKey
    | KeyNotTrustedForGrants | GrantArtifactMismatch | StructurallyInvalid | UnknownGrantAttestation

  datatype GrantEvidence = GrantEvidence(
    grantId: string, grantor: Principal, isRoot: bool, rootTrusted: Option<bool>, keyId: Option<string>,
    boundPrincipal: Option<Principal>, verification: Option<Verification>, status: AuthenticationStatus)

  datatype Authentication = Authentication(
    status: AuthenticationStatus, validation: ValidationResult, evidence: seq<GrantEvidence>,
    offending: Option<string>, authority: Option<VerifiedAuthority>)

  // ----- Lookups

  function AttestationFor(es: seq<GrantAttestation>, grantId: string): Option<GrantAttestation> {
    if es == [] then None
    else if es[0].grantId == grantId then Some(es[0])
    else AttestationFor(es[1..], grantId)
  }

  function PrincipalForKey(bs: seq<KeyBinding>, keyId: string): Option<Principal> {
    if bs == [] then None
    else if bs[0].keyId == keyId then Some(bs[0].principal)
    else PrincipalForKey(bs[1..], keyId)
  }

  function FailureStatus(s: VerificationStatus): Option<AuthenticationStatus> {
    match s
    case Genuine => None
    case UnknownKey => Some(UnknownSigningKey)
    case KeyNotTrusted => Some(KeyNotTrustedForGrants)
    case DigestMismatch => Some(GrantArtifactMismatch)
    case KindMismatch => Some(GrantArtifactMismatch)
    case _ => Some(AttestationInvalid)
  }

  // ----- Evidence for one grant

  /** What the constructor of the evidence derives from the other fields. */
  function ExpectedStatus(e: GrantEvidence): AuthenticationStatus
    requires e.verification.Some?
  {
    var failure := FailureStatus(e.verification.value.status);
    if failure.Some? then failure.value
    else if e.boundPrincipal != Some(e.grantor) then SignerNotBound
    else if e.isRoot && e.rootTrusted != Some(true) then UntrustedRoot
    else Authenticated
  }

  function MakeGrantEvidence(e: GrantEvidence): Option<GrantEvidence> {
    if e.isRoot != e.rootTrusted.Some? then None
    else if e.status == StructurallyInvalid || e.status == UnknownGrantAttestation then None
    else if e.status == MissingAttestation then
      if e.keyId.Some? || e.boundPrincipal.Some? || e.verification.Some? then None else Some(e)
    else if e.keyId.None? || e.verification.None? then None
    else if e.keyId.value != e.verification.value.attestation.keyId then None
    else if e.status != ExpectedStatus(e) then None
    else Some(e)
  }

  function RootTrusted(g: AuthorityGrant, isRoot: bool, t: Trust): Option<bool> {
    if isRoot then Some(g.grantor in t.roots) else None
  }

  function SignedEvidence(g: AuthorityGrant, isRoot: bool, t: Trust, v: Verification): GrantEvidence {
    var keyId := v.attestation.keyId;
    var bound := PrincipalForKey(t.registry, keyId);
    var failure := FailureStatus(v.status);
    var rootTrusted := RootTrusted(g, isRoot, t);
    var status :=
      if failure.Some? then failure.value
      else if bound != Some(g.grantor) then SignerNotBound
      else if isRoot && rootTrusted != Some(true) then UntrustedRoot
      else Authenticated;
    GrantEvidence(g.identifier, g.grantor, isRoot, rootTrusted, Some(keyId), bound, Some(v), status)
  }

  /** One pass of the loop. */
  function EvidenceFor(id: Identity, g: AuthorityGrant, isRoot: bool, t: Trust): Option<GrantEvidence> {
    var entry := AttestationFor(t.attestations, g.identifier);
    if entry.None? then
      MakeGrantEvidence(GrantEvidence(g.identifier, g.grantor, isRoot, RootTrusted(g, isRoot, t), None, None, None, MissingAttestation))
    else
      var v :- VerifyArtifact(id, OfGrant(g), entry.value.attestation, t.store, GrantPurpose);
      MakeGrantEvidence(SignedEvidence(g, isRoot, t, v))
  }

  lemma {:induction false} EvidenceTotal(id: Identity, g: AuthorityGrant, isRoot: bool, t: Trust)
    requires ValidTrust(t)
    ensures EvidenceFor(id, g, isRoot, t).Some?
    ensures EvidenceFor(id, g, isRoot, t).value.grantId == g.identifier
    ensures EvidenceFor(id, g, isRoot, t).value.status != StructurallyInvalid
    ensures EvidenceFor(id, g, isRoot, t).value.status != UnknownGrantAttestation
  {
    hide VerifyArtifact, AttestationFor, PrincipalForKey;
    var entry := AttestationFor(t.attestations, g.identifier);
    if entry.Some? {
      VerifiedExactly(id, OfGrant(g), entry.value.attestation, t.store, GrantKind, GrantPurpose);
    }
  }

  /** Evidence for every grant, root first. */
  function ChainEvidence(id: Identity, gs: Grants, t: Trust): (r: seq<GrantEvidence>)
    requires ValidTrust(t)
    ensures |r| == |gs|
    ensures forall i :: 0 <= i < |gs| ==> EvidenceFor(id, gs[i], i == 0, t) == Some(r[i])
  {
    seq(|gs|, i requires 0 <= i < |gs| => EvidenceAt(id, gs, i, t))
  }

  function EvidenceAt(id: Identity, gs: Grants, i: nat, t: Trust): (e: GrantEvidence)
    requires ValidTrust(t) && i < |gs|
    ensures EvidenceFor(id, gs[i], i == 0, t) == Some(e)
  {
    EvidenceTotal(id, gs[i], i == 0, t);
    EvidenceFor(id, gs[i], i == 0, t).value
  }

  /** The loop over the chain, with both of its branches appending to the evidence. */
  method CollectEvidence(id: Identity, gs: Grants, t: Trust) returns (evidence: seq<GrantEvidence>)
    requires ValidTrust(t)
    ensures evidence == ChainEvidence(id, gs, t)
  {
    hide VerifyArtifact, MakeGrantEvidence, SignedEvidence;
    evidence := [];
    for index := 0 to |gs|
      invariant |evidence| == index
      invariant forall i :: 0 <= i < index ==> EvidenceFor(id, gs[i], i == 0, t) == Some(evidence[i])
    {
      var grant := gs[index];
      var isRoot := index == 0;
      EvidenceTotal(id, grant, isRoot, t);
      var entry := AttestationFor(t.attestations, grant.identifier);
      if entry.None? {
        var missing := MakeGrantEvidence(GrantEvidence(grant.identifier, grant.grantor, isRoot, RootTrusted(grant, isRoot, t),
                                                  None, None, None, MissingAttestation));
        evidence := evidence + [missing.value];
        continue;
      }
      var verification := VerifyArtifact(id, OfGrant(grant), entry.value.attestation, t.store, GrantPurpose);
      var signed := MakeGrantEvidence(SignedEvidence(grant, isRoot, t, verification.value));
      evidence := evidence + [signed.value];
    }
    assert evidence == ChainEvidence(id, gs, t);
  }

  function FirstUnknown(es: seq<GrantAttestation>, gs: Grants): Option<string> {
    if es == [] then None
    else if forall i :: 0 <= i < |gs| ==> gs[i].identifier != es[0].grantId then Some(es[0].grantId)
    else FirstUnknown(es[1..], gs)
  }

  function FirstUnauthenticated(es: seq<GrantEvidence>): Option<GrantEvidence> {
    if es == [] then None
    else if es[0].status != Authenticated then Some(es[0])
    else FirstUnauthenticated(es[1..])
  }

  /** The checks of `_from_authentication` on the result and on the authority it carries. */
  function MakeAuthentication(r: Authentication): Option<Authentication> {
    if (r.status == Authenticated) != r.authority.Some? then None
    else if r.status == Authenticated then
      if r.validation.status != Valid || r.offending.Some? || r.evidence == []
         || FirstUnauthenticated(r.evidence).Some? || r.authority != r.validation.verified then None
      else Some(r)
    else if r.offending.None? then None
    else if (r.status == StructurallyInvalid) == (r.validation.status == Valid) then None
    else Some(r)
  }

  /** `authenticate_delegation_chain`. */
  function TryAuthenticate(id: Identity, chain: DelegationChain, state: AuthorizationState, t: Trust): Option<Authentication>
    requires chain.grants != [] && ValidTrust(t)
  {
    var validation := ValidateAuthority(id, chain, state);
    if validation.status != Valid then
      MakeAuthentication(Authentication(StructurallyInvalid, validation, [], validation.offending, None))
    else
      var unknown := FirstUnknown(t.attestations, chain.grants);
      if unknown.Some? then
        MakeAuthentication(Authentication(UnknownGrantAttestation, validation, [], unknown, None))
      else
        var evidence := ChainEvidence(id, chain.grants, t);
        var failure := FirstUnauthenticated(evidence);
        if failure.Some? then
          MakeAuthentication(Authentication(failure.value.status, validation, evidence, Some(failure.value.grantId), None))
        else if validation.verified.None? then None
        else MakeAuthentication(Authentication(Authenticated, validation, evidence, None, validation.verified))
  }

  // ----- What authentication means

  /** The grant's own attestation: by a key trusted for grants, bound to the grantor and to nobody else. */
  ghost predicate SignedByGrantor(id: Identity, g: AuthorityGrant, t: Trust) {
    exists e ::
      && e in t.attestations && e.grantId == g.identifier
      && Attests(t.store, e.attestation, GrantKind, GrantPurpose, id(OfGrant(g)))
      && KeyBinding(g.grantor, e.attestation.keyId) in t.registry
      && forall b :: b in t.registry && b.keyId == e.attestation.keyId ==> b.principal == g.grantor
  }

  ghost predicate InChain(gs: Grants, grantId: string) {
    exists j :: 0 <= j < |gs| && gs[j].identifier == grantId
  }

  ghost predicate Attested(es: seq<GrantAttestation>, grantId: string) {
    exists i :: 0 <= i < |es| && es[i].grantId == grantId
  }

  ghost predicate SameGrantIds(gs: Grants, es: seq<GrantAttestation>) {
    forall grantId :: InChain(gs, grantId) <==> Attested(es, grantId)
  }

  lemma {:induction false} AttestationFound(es: seq<GrantAttestation>, grantId: string)
    ensures AttestationFor(es, grantId).Some? ==>
              AttestationFor(es, grantId).value in es && AttestationFor(es, grantId).value.grantId == grantId
  {
    if es != [] {
      AttestationFound(es[1..], grantId);
    }
  }

  lemma {:induction false} AttestationUnique(es: seq<GrantAttestation>, e: GrantAttestation)
    requires UniqueAttestations(es) && e in es
    ensures AttestationFor(es, e.grantId) == Some(e)
  {
    if es[0] != e {
      var i :| 0 <= i < |es| && es[i] == e;
      assert es[0].grantId != es[i].grantId;
      AttestationUnique(es[1..], e);
    }
  }

  lemma {:induction false} PrincipalFound(bs: seq<KeyBinding>, keyId: string, p: Principal)
    requires OneToOne(bs)
    ensures PrincipalForKey(bs, keyId) == Some(p)
            <==> KeyBinding(p, keyId) in bs && forall b :: b in bs && b.keyId == keyId ==> b.principal == p
  {
    if bs != [] {
      PrincipalFound(bs[1..], keyId, p);
      if bs[0].keyId == keyId {
        forall b | b in bs[1..] ensures b.keyId != keyId {
          var i :| 0 <= i < |bs[1..]| && bs[1..][i] == b;
          assert bs[0].keyId != bs[i + 1].keyId;
        }
      }
      assert forall b :: b in bs <==> b == bs[0] || b in bs[1..];
    }
  }

  lemma {:induction false} EvidenceExact(id: Identity, g: AuthorityGrant, isRoot: bool, t: Trust)
    requires ValidTrust(t)
    ensures EvidenceFor(id, g, isRoot, t).Some?
    ensures EvidenceFor(id, g, isRoot, t).value.status == Authenticated
            <==> SignedByGrantor(id, g, t) && (isRoot ==> g.grantor in t.roots)
  {
    hide VerifyArtifact, AttestationFor, PrincipalForKey, Attests, OneToOne, UniqueAttestations, ValidStore;
    EvidenceTotal(id, g, isRoot, t);
    AttestationFound(t.attestations, g.identifier);
    var entry := AttestationFor(t.attestations, g.identifier);
    if entry.Some? {
      var a := entry.value.attestation;
      VerifiedExactly(id, OfGrant(g), a, t.store, GrantKind, GrantPurpose);
      PrincipalFound(t.registry, a.keyId, g.grantor);
    }
    if e :| && e in t.attestations && e.grantId == g.identifier
            && Attests(t.store, e.attestation, GrantKind, GrantPurpose, id(OfGrant(g)))
            && KeyBinding(g.grantor, e.attestation.keyId) in t.registry
            && forall b :: b in t.registry && b.keyId == e.attestation.keyId ==> b.principal == g.grantor
    {
      AttestationUnique(t.attestations, e);
    }
  }

  /** The key is registered for this principal, and for nobody else. */
  ghost predicate KeyBoundTo(t: Trust, keyId: string, p: Principal) {
    KeyBinding(p, keyId) in t.registry && forall b :: b in t.registry && b.keyId == keyId ==> b.principal == p
  }

  /**
    The status of a grant's evidence names the first obstacle: no attestation, one for something
    else, an unknown key, a bad one, a key not trusted for grants, not the grantor's key, a root
    that is not trusted.
    */
  lemma {:induction false} EvidenceIsFirst(id: Identity, g: AuthorityGrant, isRoot: bool, t: Trust, e: GrantAttestation)
    requires ValidTrust(t) && e in t.attestations && e.grantId == g.identifier
    ensures EvidenceFor(id, g, isRoot, t).Some?
    ensures var status, a := EvidenceFor(id, g, isRoot, t).value.status, e.attestation;
            var aimed := Aimed(a, GrantKind, GrantPurpose, id(OfGrant(g)));
            var genuine := aimed && SignedByKnownKey(t.store, a) && TrustedFor(t.store, a, GrantPurpose);
            && (status == GrantArtifactMismatch <==>
                  a.kind != GrantKind || (a.purpose == GrantPurpose && a.digest != id(OfGrant(g))))
            && (status == UnknownSigningKey <==> aimed && !KeyKnown(t.store, a))
            && (status == AttestationInvalid <==>
                  || (a.kind == GrantKind && a.purpose != GrantPurpose)
                  || (aimed && KeyKnown(t.store, a) && !SignedByKnownKey(t.store, a)))
            && (status == KeyNotTrustedForGrants <==>
                  aimed && SignedByKnownKey(t.store, a) && !TrustedFor(t.store, a, GrantPurpose))
            && (status == SignerNotBound <==> genuine && !KeyBoundTo(t, a.keyId, g.grantor))
            && (status == UntrustedRoot <==>
                  genuine && KeyBoundTo(t, a.keyId, g.grantor) && isRoot && g.grantor !in t.roots)
            && (status == Authenticated <==>
                  genuine && KeyBoundTo(t, a.keyId, g.grantor) && (isRoot ==> g.grantor in t.roots))
  {
    hide VerifyArtifact, AttestationFor, PrincipalForKey, OneToOne, UniqueAttestations, ValidStore;
    hide SignedByKnownKey, KeyKnown, TrustedFor;
    EvidenceTotal(id, g, isRoot, t);
    AttestationUnique(t.attestations, e);
    VerificationIsFirst(id, OfGrant(g), e.attestation, t.store, GrantKind, GrantPurpose);
    VerifiedExactly(id, OfGrant(g), e.attestation, t.store, GrantKind, GrantPurpose);
    PrincipalFound(t.registry, e.attestation.keyId, g.grantor);
  }

  lemma {:induction false} MissingExactly(id: Identity, g: AuthorityGrant, isRoot: bool, t: Trust)
    requires ValidTrust(t)
    ensures EvidenceFor(id, g, isRoot, t).Some?
    ensures EvidenceFor(id, g, isRoot, t).value.status == MissingAttestation <==> !Attested(t.attestations, g.identifier)
  {
    hide VerifyArtifact, AttestationFor, PrincipalForKey, OneToOne, UniqueAttestations, ValidStore, Attests;
    EvidenceTotal(id, g, isRoot, t);
    AttestationFound(t.attestations, g.identifier);
    if i :| 0 <= i < |t.attestations| && t.attestations[i].grantId == g.identifier {
      AttestationUnique(t.attestations, t.attestations[i]);
    }
  }

  lemma {:induction false} UnknownExact(es: seq<GrantAttestation>, gs: Grants)
    ensures FirstUnknown(es, gs).None?
            <==> forall grantId :: Attested(es, grantId) ==> InChain(gs, grantId)
    ensures FirstUnknown(es, gs).Some? ==>
              exists i :: && 0 <= i < |es| && es[i].grantId == FirstUnknown(es, gs).value && !InChain(gs, es[i].grantId)
                          && forall j :: 0 <= j < i ==> InChain(gs, es[j].grantId)
  {
    if es != [] {
      UnknownExact(es[1..], gs);
      assert Attested(es, es[0].grantId);
      forall grantId ensures Attested(es, grantId) <==> grantId == es[0].grantId || Attested(es[1..], grantId) {
        if i :| 0 <= i < |es[1..]| && es[1..][i].grantId == grantId {
          assert es[i + 1].grantId == grantId;
        }
        if i :| 0 <= i < |es| && es[i].grantId == grantId {
          assert i > 0 ==> es[1..][i - 1].grantId == grantId;
        }
      }
    }
  }

  lemma {:induction false} UnauthenticatedExact(es: seq<GrantEvidence>)
    ensures FirstUnauthenticated(es).None? <==> forall i :: 0 <= i < |es| ==> es[i].status == Authenticated
    ensures FirstUnauthenticated(es).Some? ==>
              exists i :: && 0 <= i < |es| && es[i] == FirstUnauthenticated(es).value && es[i].status != Authenticated
                          && forall j :: 0 <= j < i ==> es[j].status == Authenticated
  {
    if es != [] {
      UnauthenticatedExact(es[1..]);
      assert forall i :: 0 < i < |es| ==> es[i] == es[1..][i - 1];
      if es[0].status == Authenticated && FirstUnauthenticated(es[1..]).Some? {
        var i :| && 0 <= i < |es[1..]| && es[1..][i] == FirstUnauthenticated(es).value && es[1..][i].status != Authenticated
                 && forall j :: 0 <= j < i ==> es[1..][j].status == Authenticated;
        assert es[i + 1] == es[1..][i];
      }
    }
  }

  /** The first grant whose evidence is not authenticated gives the status and is the one named. */
  ghost predicate NamesFirstFailure(r: Authentication, evidence: seq<GrantEvidence>) {
    exists i :: && 0 <= i < |evidence| && r.status == evidence[i].status != Authenticated
                && r.offending == Some(evidence[i].grantId)
                && forall j :: 0 <= j < i ==> evidence[j].status == Authenticated
  }

  /** Authentication never raises; its failures name the first check, and the first grant, to fail. */
  lemma {:induction false} AuthenticateTotal(id: Identity, chain: DelegationChain, state: AuthorizationState, t: Trust)
    requires chain.grants != [] && ValidTrust(t)
    ensures TryAuthenticate(id, chain, state, t).Some?
    ensures var r := TryAuthenticate(id, chain, state, t).value;
            && r.validation == ValidateAuthority(id, chain, state)
            && (r.status == StructurallyInvalid <==> r.validation.status != Valid)
            && (r.status == UnknownGrantAttestation <==>
                  r.validation.status == Valid && FirstUnknown(t.attestations, chain.grants).Some?)
            && (r.status == Authenticated <==>
                  && r.validation.status == Valid && FirstUnknown(t.attestations, chain.grants).None?
                  && forall i :: 0 <= i < |chain.grants| ==> ChainEvidence(id, chain.grants, t)[i].status == Authenticated)
            && (r.status == Authenticated ==>
                  r.authority == r.validation.verified && r.evidence == ChainEvidence(id, chain.grants, t))
            && match r.status {
                 case Authenticated => r.offending.None?
                 case StructurallyInvalid => r.offending == r.validation.offending
                 case UnknownGrantAttestation => r.offending == FirstUnknown(t.attestations, chain.grants)
                 case _ => NamesFirstFailure(r, ChainEvidence(id, chain.grants, t))
               }
  {
    hide ValidateAuthority, FirstUnknown, FirstUnauthenticated, EvidenceFor, ValidTrust;
    ResultVouches(id, chain, state);
    UnauthenticatedExact(ChainEvidence(id, chain.grants, t));
    forall i | 0 <= i < |chain.grants|
      ensures ChainEvidence(id, chain.grants, t)[i].status != StructurallyInvalid
      ensures ChainEvidence(id, chain.grants, t)[i].status != UnknownGrantAttestation
    {
      EvidenceTotal(id, chain.grants[i], i == 0, t);
    }
  }

  function Authenticate(id: Identity, chain: DelegationChain, state: AuthorizationState, t: Trust): Authentication
    requires chain.grants != [] && ValidTrust(t)
  {
    AuthenticateTotal(id, chain, state, t);
    TryAuthenticate(id, chain, state, t).value
  }

  /**
    AUTHENTICATED means exactly: the chain is sound and current, the attestations are for the
    grants of the chain and no others, each grant is signed by the one key bound to its grantor,
    and the root grantor is a trusted root.
    */
  lemma {:induction false} AuthenticatedExactly(id: Identity, chain: DelegationChain, state: AuthorizationState, t: Trust)
    requires chain.grants != [] && ValidTrust(t)
    ensures Authenticate(id, chain, state, t).status == Authenticated <==>
      && SoundChain(chain.grants) && Current(chain.grants, state)
      && SameGrantIds(chain.grants, t.attestations)
      && (forall i :: 0 <= i < |chain.grants| ==> SignedByGrantor(id, chain.grants[i], t))
      && chain.grants[0].grantor in t.roots
  {
    hide ValidateAuthority, SoundChain, Current, EvidenceFor, FirstUnknown, TryAuthenticate, ValidTrust, Attests, Attested;
    var gs := chain.grants;
    ValidExact(id, chain, state);
    AuthenticateTotal(id, chain, state, t);
    UnknownExact(t.attestations, gs);
    forall i | 0 <= i < |gs|
      ensures ChainEvidence(id, gs, t)[i].status == Authenticated
              <==> SignedByGrantor(id, gs[i], t) && (i == 0 ==> gs[i].grantor in t.roots)
    {
      EvidenceExact(id, gs[i], i == 0, t);
    }
    if forall i :: 0 <= i < |gs| ==> SignedByGrantor(id, gs[i], t) {
      forall grantId | InChain(gs, grantId) ensures Attested(t.attestations, grantId) {
        var j: nat :| j < |gs| && gs[j].identifier == grantId;
        SignedIsAttested(id, gs[j], t);
      }
    }
  }

  /** The attestation kept for this grant carries a signature somebody made with `key` over the grant `signed`. */
  ghost predicate MadeOver(id: Identity, g: AuthorityGrant, t: Trust, signed: AuthorityGrant, key: PublicKey) {
    exists e, keyId ::
      && e in t.attestations && e.grantId == g.identifier
      && var made := SignArtifact(id, OfGrant(signed), key, keyId, GrantPurpose);
         made.Some? && e.attestation.signature == made.value.signature
  }

  /** A trusted key of the grantor, and of nobody else. */
  ghost predicate KeyOfGrantor(g: AuthorityGrant, t: Trust, key: PublicKey) {
    exists k ::
      && k in t.store.keys && k.publicKey == key
      && KeyBinding(g.grantor, k.keyId) in t.registry
      && forall b :: b in t.registry && b.keyId == k.keyId ==> b.principal == g.grantor
  }

  /**
    In an authenticated chain every grant is the very grant its grantor signed: whatever grants the
    attached signatures were made over, and with whatever keys, absent collisions between the pairs
    they are the grants of the chain, signed with the keys of their grantors.
    */
  lemma {:induction false} AuthenticatedChainWasSigned(
    id: Identity, chain: DelegationChain, state: AuthorizationState, t: Trust, signed: seq<AuthorityGrant>, keys: seq<PublicKey>)
    requires chain.grants != [] && ValidTrust(t)
    requires Authenticate(id, chain, state, t).status == Authenticated
    requires |signed| == |chain.grants| == |keys|
    requires forall i :: 0 <= i < |signed| ==> MadeOver(id, chain.grants[i], t, signed[i], keys[i])
    requires forall i :: 0 <= i < |signed| ==> NoCollision(id, OfGrant(signed[i]), OfGrant(chain.grants[i]))
    ensures signed == chain.grants
    ensures forall i :: 0 <= i < |keys| ==> KeyOfGrantor(chain.grants[i], t, keys[i])
  {
    hide SoundChain, Current, SameGrantIds, SignedByGrantor, Authenticate, ValidTrust, MadeOver, KeyOfGrantor, NoCollision;
    AuthenticatedExactly(id, chain, state, t);
    forall i | 0 <= i < |signed| ensures signed[i] == chain.grants[i] && KeyOfGrantor(chain.grants[i], t, keys[i]) {
      SignedGrantIsGrant(id, chain.grants[i], t, signed[i], keys[i]);
    }
  }

  lemma {:induction false} SignedGrantIsGrant(id: Identity, g: AuthorityGrant, t: Trust, signed: AuthorityGrant, key: PublicKey)
    requires ValidTrust(t) && SignedByGrantor(id, g, t) && MadeOver(id, g, t, signed, key)
    requires NoCollision(id, OfGrant(signed), OfGrant(g))
    ensures signed == g && KeyOfGrantor(g, t, key)
  {
    hide Attests, UniqueAttestations, OneToOne, ValidStore, SignArtifact;
    var e :| && e in t.attestations && e.grantId == g.identifier
             && Attests(t.store, e.attestation, GrantKind, GrantPurpose, id(OfGrant(g)))
             && KeyBinding(g.grantor, e.attestation.keyId) in t.registry
             && forall b :: b in t.registry && b.keyId == e.attestation.keyId ==> b.principal == g.grantor;
    var f, keyId :|
      && f in t.attestations && f.grantId == g.identifier
      && var made := SignArtifact(id, OfGrant(signed), key, keyId, GrantPurpose);
         made.Some? && f.attestation.signature == made.value.signature;
    AttestationUnique(t.attestations, e);
    AttestationUnique(t.attestations, f);
    VerifiedExactly(id, OfGrant(g), e.attestation, t.store, GrantKind, GrantPurpose);
    VerifiedIsWhatWasSigned(id, OfGrant(signed), key, keyId, OfGrant(g), e.attestation, t.store);
  }

  lemma {:induction false} SignedIsAttested(id: Identity, g: AuthorityGrant, t: Trust)
    requires SignedByGrantor(id, g, t)
    ensures Attested(t.attestations, g.identifier)
  {
    hide Attests;
  }
}
