/**
  Detached attestations over artifact digests (attestation.py, domain.py:423-633). Ed25519 is
  symbolic: a signature records the key and the message it was made with, and verifies for exactly
  that key and message.
  */
module Attestation {
  import opened Wrappers
  import opened Utf8
  import opened StrictUtf8
  import opened Integers
  import opened Domain
  import opened Construction

  type PublicKey = b: Bytes | |b| == 32 witness seq(32, i => 0)

  datatype Signature = SignedBy(key: PublicKey, message: Bytes) | NobodysSignature(raw: Bytes)

  predicate SignatureVerifies(key: PublicKey, signature: Signature, message: Bytes) {
    signature == SignedBy(key, message)
  }

  datatype SignatureScheme = Ed25519
  datatype ArtifactPurpose = BundlePurpose | GrantPurpose | ReceiptPurpose | PermitPurpose
  datatype ArtifactKind = BundleKind | GrantKind | ReceiptKind | PermitKind

  function SchemeText(s: SignatureScheme): string { "ED25519" }

  function PurposeText(p: ArtifactPurpose): string {
    match p
    case BundlePurpose => "POLICY_BUNDLE"
    case GrantPurpose => "AUTHORITY_GRANT"
    case ReceiptPurpose => "DECISION_RECEIPT"
    case PermitPurpose => "EXECUTION_PERMIT"
  }

  function KindText(k: ArtifactKind): string {
    match k
    case BundleKind => "POLICY_BUNDLE"
    case GrantKind => "AUTHORITY_GRANT"
    case ReceiptKind => "DECISION_RECEIPT"
    case PermitKind => "EXECUTION_PERMIT"
  }

  // ----- The signed message

  /** "NEST-AUTHZ-ATTESTATION", a zero byte and version 1. */
  const PREAMBLE: Bytes := EncodeString("NEST-AUTHZ-ATTESTATION") + [0, 1]

  const MAX_FIELD_LENGTH := 0xFFFF_FFFF

  function MessageField(tag: Byte, value: Bytes): Option<Bytes> {
    if |value| > MAX_FIELD_LENGTH then None else Some([tag] + BigEndian(|value|, 4) + value)
  }

  function SigningMessage(scheme: SignatureScheme, purpose: ArtifactPurpose, kind: ArtifactKind, digest: Digest)
    : Option<Bytes>
  {
    var s :- MessageField(0x53, EncodeString(SchemeText(scheme)));
    var p :- MessageField(0x50, EncodeString(PurposeText(purpose)));
    var k :- MessageField(0x4B, EncodeString(KindText(kind)));
    var d :- MessageField(0x44, digest);
    Some(PREAMBLE + (s + (p + (k + d))))
  }

  lemma {:induction false} EncodedLength(s: string)
    ensures |EncodeString(s)| <= 4 * |s|
  {
    if s != [] {
      EncodedLength(s[1..]);
    }
  }

  lemma {:induction false} MessageTotal(scheme: SignatureScheme, purpose: ArtifactPurpose, kind: ArtifactKind, digest: Digest)
    ensures SigningMessage(scheme, purpose, kind, digest).Some?
  {
    hide EncodeString, BigEndian;
    EncodedLength(SchemeText(scheme));
    EncodedLength(PurposeText(purpose));
    EncodedLength(KindText(kind));
    assert |PurposeText(purpose)| <= 16 && |KindText(kind)| <= 16;
  }

  // ----- Reading a message back

  /** The value of the field a byte sequence starts with, and what follows it. */
  function ReadField(tag: Byte, b: Bytes): Option<(Bytes, Bytes)> {
    if |b| < 5 || b[0] != tag then None
    else
      var end := 5 + FromBytes(b[1..5]);
      if |b| < end then None else Some((b[5..end], b[end..]))
  }

  function ReadScheme(b: Bytes): Option<SignatureScheme> {
    if b == EncodeString("ED25519") then Some(Ed25519) else None
  }

  function ReadPurpose(b: Bytes): Option<ArtifactPurpose> {
    if b == EncodeString("POLICY_BUNDLE") then Some(BundlePurpose)
    else if b == EncodeString("AUTHORITY_GRANT") then Some(GrantPurpose)
    else if b == EncodeString("DECISION_RECEIPT") then Some(ReceiptPurpose)
    else if b == EncodeString("EXECUTION_PERMIT") then Some(PermitPurpose)
    else None
  }

  function ReadKind(b: Bytes): Option<ArtifactKind> {
    if b == EncodeString("POLICY_BUNDLE") then Some(BundleKind)
    else if b == EncodeString("AUTHORITY_GRANT") then Some(GrantKind)
    else if b == EncodeString("DECISION_RECEIPT") then Some(ReceiptKind)
    else if b == EncodeString("EXECUTION_PERMIT") then Some(PermitKind)
    else None
  }

  datatype Signed = Signed(scheme: SignatureScheme, purpose: ArtifactPurpose, kind: ArtifactKind, digest: Digest)

  /** Four fields, and nothing more. */
  function ReadFields(b: Bytes): Option<(Bytes, Bytes, Bytes, Bytes)> {
    var (s, afterScheme) :- ReadField(0x53, b);
    var (p, afterPurpose) :- ReadField(0x50, afterScheme);
    var (k, afterKind) :- ReadField(0x4B, afterPurpose);
    var (d, rest) :- ReadField(0x44, afterKind);
    if rest != [] then None else Some((s, p, k, d))
  }

  /** What a message says: after the preamble, scheme, purpose, kind and digest. */
  function ReadMessage(b: Bytes): Option<Signed> {
    if |b| < |PREAMBLE| || b[..|PREAMBLE|] != PREAMBLE then None
    else
      var (s, p, k, d) :- ReadFields(b[|PREAMBLE|..]);
      var scheme :- ReadScheme(s);
      var purpose :- ReadPurpose(p);
      var kind :- ReadKind(k);
      if |d| != 32 then None else Some(Signed(scheme, purpose, kind, d))
  }

  /** A field announces its own end. */
  lemma {:induction false} FieldRead(tag: Byte, value: Bytes, rest: Bytes)
    requires |value| <= MAX_FIELD_LENGTH
    ensures MessageField(tag, value).Some?
    ensures ReadField(tag, MessageField(tag, value).value + rest) == Some((value, rest))
  {
    var b := MessageField(tag, value).value + rest;
    assert b[0] == tag && b[1..5] == BigEndian(|value|, 4);
    assert Power256(4) == 0x1_0000_0000 by {
      assert Power256(0) == 1 && Power256(1) == 256 && Power256(2) == 65536;
    }
    FromToBytes(|value|, 4);
    assert b[5..5 + |value|] == value && b[5 + |value|..] == rest;
  }

  lemma {:induction false} FieldsRead(s: Bytes, p: Bytes, k: Bytes, d: Bytes)
    requires |s| <= MAX_FIELD_LENGTH && |p| <= MAX_FIELD_LENGTH && |k| <= MAX_FIELD_LENGTH && |d| <= MAX_FIELD_LENGTH
    ensures MessageField(0x53, s).Some? && MessageField(0x50, p).Some?
    ensures MessageField(0x4B, k).Some? && MessageField(0x44, d).Some?
    ensures ReadFields(MessageField(0x53, s).value + (MessageField(0x50, p).value
                       + (MessageField(0x4B, k).value + MessageField(0x44, d).value)))
            == Some((s, p, k, d))
  {
    hide MessageField, ReadField;
    FieldRead(0x44, d, []);
    var fd := MessageField(0x44, d).value;
    assert fd + [] == fd;
    FieldRead(0x4B, k, fd);
    var fk := MessageField(0x4B, k).value + fd;
    FieldRead(0x50, p, fk);
    FieldRead(0x53, s, MessageField(0x50, p).value + fk);
  }

  lemma {:induction false} TextsRead(purpose: ArtifactPurpose, kind: ArtifactKind)
    ensures ReadScheme(EncodeString(SchemeText(Ed25519))) == Some(Ed25519)
    ensures ReadPurpose(EncodeString(PurposeText(purpose))) == Some(purpose)
    ensures ReadKind(EncodeString(KindText(kind))) == Some(kind)
  {
    hide EncodeString;
    FourTexts();
  }

  lemma {:induction false} FourTexts()
    ensures var p, g, r, e := EncodeString("POLICY_BUNDLE"), EncodeString("AUTHORITY_GRANT"),
                              EncodeString("DECISION_RECEIPT"), EncodeString("EXECUTION_PERMIT");
            p != g && p != r && p != e && g != r && g != e && r != e
  {
    assert EncodeString("POLICY_BUNDLE")[0] == 0x50;
    assert EncodeString("AUTHORITY_GRANT")[0] == 0x41;
    assert EncodeString("DECISION_RECEIPT")[0] == 0x44;
    assert EncodeString("EXECUTION_PERMIT")[0] == 0x45;
  }

  /** A signing message is read back as the scheme, purpose, kind and digest it was made of. */
  lemma {:induction false} MessageRead(scheme: SignatureScheme, purpose: ArtifactPurpose, kind: ArtifactKind, digest: Digest)
    ensures SigningMessage(scheme, purpose, kind, digest).Some?
    ensures ReadMessage(SigningMessage(scheme, purpose, kind, digest).value) == Some(Signed(scheme, purpose, kind, digest))
  {
    MessageTotal(scheme, purpose, kind, digest);
    FieldsShort(scheme, purpose, kind);
    hide EncodeString, BigEndian, PurposeText, KindText, SchemeText, ReadScheme, ReadPurpose, ReadKind, ReadFields;
    hide MessageField;
    FieldsRead(EncodeString(SchemeText(scheme)), EncodeString(PurposeText(purpose)), EncodeString(KindText(kind)), digest);
    var b := SigningMessage(scheme, purpose, kind, digest).value;
    assert b == PREAMBLE + b[|PREAMBLE|..];
    TextsRead(purpose, kind);
  }

  lemma {:induction false} FieldsShort(scheme: SignatureScheme, purpose: ArtifactPurpose, kind: ArtifactKind)
    ensures |EncodeString(SchemeText(scheme))| <= MAX_FIELD_LENGTH
    ensures |EncodeString(PurposeText(purpose))| <= MAX_FIELD_LENGTH && |EncodeString(KindText(kind))| <= MAX_FIELD_LENGTH
  {
    hide EncodeString;
    EncodedLength(SchemeText(scheme));
    EncodedLength(PurposeText(purpose));
    EncodedLength(KindText(kind));
    assert |PurposeText(purpose)| <= 16 && |KindText(kind)| <= 16;
  }

  lemma {:induction false} ShortLength(n: nat)
    requires n < 256
    ensures BigEndian(n, 4) == [0, 0, 0, n]
  {
    assert BigEndian(n / 256 / 256 / 256, 1) == [0] && BigEndian(n / 256 / 256, 2) == [0, 0];
    assert BigEndian(n / 256, 3) == [0, 0, 0];
  }

  lemma {:induction false} AsciiField(tag: Byte, text: string)
    requires |text| < 256 && forall i :: 0 <= i < |text| ==> text[i] as int < 0x80
    ensures MessageField(tag, EncodeString(text)).Some?
    ensures var f := MessageField(tag, EncodeString(text)).value;
            && |f| == 5 + |text| && f[0] == tag && f[1] == f[2] == f[3] == 0 && f[4] == |text|
            && forall i :: 5 <= i < |f| ==> f[i] == text[i - 5] as int
  {
    hide EncodeString, BigEndian;
    AsciiEncoded(text);
    ShortLength(|text|);
  }

  /** The signing message for a policy bundle, byte by byte: a fixed vector with the digest behind it. */
  lemma {:induction false} GoldenMessage(digest: Digest)
    ensures SigningMessage(Ed25519, BundlePurpose, BundleKind, digest).Some?
    ensures SigningMessage(Ed25519, BundlePurpose, BundleKind, digest).value
            == BundlePreamble() + (SchemeBytes() + (PurposeBytes() + (KindBytes() + (DigestHeader() + digest))))
  {
    SchemeField();
    BundleFields();
    DigestField(digest);
    PreambleBytes();
    hide EncodeString, MessageField;
  }

  function BundlePreamble(): Bytes {
    [0x4E, 0x45, 0x53, 0x54, 0x2D, 0x41, 0x55, 0x54, 0x48, 0x5A, 0x2D, 0x41, 0x54, 0x54,
     0x45, 0x53, 0x54, 0x41, 0x54, 0x49, 0x4F, 0x4E, 0x00, 0x01]
  }

  function SchemeBytes(): Bytes { [0x53, 0x00, 0x00, 0x00, 0x07, 0x45, 0x44, 0x32, 0x35, 0x35, 0x31, 0x39] }

  function PurposeBytes(): Bytes {
    [0x50, 0x00, 0x00, 0x00, 0x0D, 0x50, 0x4F, 0x4C, 0x49,
     0x43, 0x59, 0x5F, 0x42, 0x55, 0x4E, 0x44, 0x4C, 0x45]
  }

  function KindBytes(): Bytes {
    [0x4B, 0x00, 0x00, 0x00, 0x0D, 0x50, 0x4F, 0x4C, 0x49,
     0x43, 0x59, 0x5F, 0x42, 0x55, 0x4E, 0x44, 0x4C, 0x45]
  }

  function DigestHeader(): Bytes { [0x44, 0x00, 0x00, 0x00, 0x20] }

  lemma {:induction false} PreambleBytes()
    ensures PREAMBLE == BundlePreamble()
  {
    hide EncodeString;
    AsciiEncoded("NEST-AUTHZ-ATTESTATION");
  }

  lemma {:induction false} SchemeField()
    ensures MessageField(0x53, EncodeString(SchemeText(Ed25519))).Some?
    ensures MessageField(0x53, EncodeString(SchemeText(Ed25519))).value == SchemeBytes()
  {
    hide EncodeString, MessageField;
    AsciiField(0x53, "ED25519");
  }

  lemma {:induction false} BundleFields()
    ensures MessageField(0x50, EncodeString(PurposeText(BundlePurpose))).Some?
    ensures MessageField(0x50, EncodeString(PurposeText(BundlePurpose))).value == PurposeBytes()
    ensures MessageField(0x4B, EncodeString(KindText(BundleKind))).Some?
    ensures MessageField(0x4B, EncodeString(KindText(BundleKind))).value == KindBytes()
  {
    hide EncodeString, MessageField;
    AsciiField(0x50, "POLICY_BUNDLE");
    AsciiField(0x4B, "POLICY_BUNDLE");
  }

  lemma {:induction false} DigestField(digest: Digest)
    ensures MessageField(0x44, digest).Some?
    ensures MessageField(0x44, digest).value == DigestHeader() + digest
  {
    hide BigEndian;
    ShortLength(32);
  }

  /** One message is signed for one scheme, one purpose, one kind and one digest. */
  lemma {:induction false} MessageInjective(
    scheme: SignatureScheme, p: ArtifactPurpose, k: ArtifactKind, d: Digest,
    other: SignatureScheme, q: ArtifactPurpose, l: ArtifactKind, e: Digest)
    requires SigningMessage(scheme, p, k, d) == SigningMessage(other, q, l, e)
    ensures scheme == other && p == q && k == l && d == e
  {
    hide SigningMessage, ReadMessage;
    MessageRead(scheme, p, k, d);
    MessageRead(other, q, l, e);
  }

  // ----- Signing and verifying

  datatype TrustedKey = TrustedKey(keyId: string, publicKey: PublicKey, purposes: seq<ArtifactPurpose>)

  datatype TrustStore = TrustStore(keys: seq<TrustedKey>)

  datatype ArtifactAttestation = ArtifactAttestation(
    scheme: SignatureScheme, keyId: string, purpose: ArtifactPurpose, kind: ArtifactKind, digest: Digest,
    signature: Signature)

  datatype VerificationStatus =
    | Genuine | DigestMismatch | SignatureInvalid | UnknownKey | KeyNotTrusted | KindMismatch | PurposeMismatch
    | SchemeUnsupported

  datatype Verification = Verification(
    status: VerificationStatus, artifactDigest: Digest, attestation: ArtifactAttestation,
    expectedPurpose: ArtifactPurpose, expectedKind: ArtifactKind)

  function KeyIdOf(k: TrustedKey): string { k.keyId }

  function MakeTrustStore(keys: seq<TrustedKey>): Option<TrustStore> {
    var sorted :- Canonical(KeyIdOf, keys);
    Some(TrustStore(sorted))
  }

  predicate ValidStore(store: TrustStore) {
    DistinctKeys(KeyIdOf, store.keys)
  }

  lemma {:induction false} MadeStoreValid(keys: seq<TrustedKey>)
    requires MakeTrustStore(keys).Some?
    ensures ValidStore(MakeTrustStore(keys).value)
    ensures forall k :: k in MakeTrustStore(keys).value.keys <==> k in keys
  {
    CanonicalAscending(KeyIdOf, keys);
    AscendingDistinct(KeyIdOf, MakeTrustStore(keys).value.keys);
  }

  /** `None` for an artifact that cannot be attested. */
  function KindAndPurpose(artifact: DomainValue): Option<(ArtifactKind, ArtifactPurpose)> {
    match artifact
    case OfBundle(_) => Some((BundleKind, BundlePurpose))
    case OfGrant(_) => Some((GrantKind, GrantPurpose))
    case OfReceipt(_) => Some((ReceiptKind, ReceiptPurpose))
    case OfPermit(_) => Some((PermitKind, PermitPurpose))
    case _ => None
  }

  /** Exactly bundles, grants, receipts and permits can be attested, each as its own kind for its own purpose. */
  lemma {:induction false} AttestableExactly(artifact: DomainValue)
    ensures KindAndPurpose(artifact) == Some((BundleKind, BundlePurpose)) <==> artifact.OfBundle?
    ensures KindAndPurpose(artifact) == Some((GrantKind, GrantPurpose)) <==> artifact.OfGrant?
    ensures KindAndPurpose(artifact) == Some((ReceiptKind, ReceiptPurpose)) <==> artifact.OfReceipt?
    ensures KindAndPurpose(artifact) == Some((PermitKind, PermitPurpose)) <==> artifact.OfPermit?
    ensures KindAndPurpose(artifact).Some?
            <==> artifact.OfBundle? || artifact.OfGrant? || artifact.OfReceipt? || artifact.OfPermit?
  {
  }

  /** `sign_artifact`, by the holder of the private key that belongs to `key`. */
  function SignArtifact(id: Identity, artifact: DomainValue, key: PublicKey, keyId: string, purpose: ArtifactPurpose)
    : Option<ArtifactAttestation>
  {
    var (kind, required) :- KindAndPurpose(artifact);
    if purpose != required then None
    else
      var message :- SigningMessage(Ed25519, purpose, kind, id(artifact));
      Some(ArtifactAttestation(Ed25519, keyId, purpose, kind, id(artifact), SignedBy(key, message)))
  }

  function FindKey(keys: seq<TrustedKey>, keyId: string): Option<TrustedKey> {
    if keys == [] then None
    else if keys[0].keyId == keyId then Some(keys[0])
    else FindKey(keys[1..], keyId)
  }

  function VerificationStatusOf(digest: Digest, a: ArtifactAttestation, store: TrustStore, kind: ArtifactKind,
                                purpose: ArtifactPurpose): Option<VerificationStatus>
  {
    var key := FindKey(store.keys, a.keyId);
    if a.kind != kind then Some(KindMismatch)
    else if a.purpose != purpose then Some(PurposeMismatch)
    else if a.scheme != Ed25519 then Some(SchemeUnsupported)
    else if a.digest != digest then Some(DigestMismatch)
    else if key.None? then Some(UnknownKey)
    else
      var message :- SigningMessage(a.scheme, a.purpose, a.kind, a.digest);
      if !SignatureVerifies(key.value.publicKey, a.signature, message) then Some(SignatureInvalid)
      else if purpose !in key.value.purposes then Some(KeyNotTrusted)
      else Some(Genuine)
  }

  /** `ArtifactVerificationResult._from_verification`. */
  function MakeVerification(v: Verification): Option<Verification> {
    if v.status == Genuine
       && (v.artifactDigest != v.attestation.digest || v.expectedPurpose != v.attestation.purpose
           || v.expectedKind != v.attestation.kind || v.attestation.scheme != Ed25519) then None
    else if v.status == DigestMismatch && v.artifactDigest == v.attestation.digest then None
    else if v.status == PurposeMismatch && v.expectedPurpose == v.attestation.purpose then None
    else if v.status == KindMismatch && v.expectedKind == v.attestation.kind then None
    else Some(v)
  }

  /** `verify_artifact`. */
  function VerifyArtifact(id: Identity, artifact: DomainValue, a: ArtifactAttestation, store: TrustStore,
                          purpose: ArtifactPurpose): Option<Verification>
  {
    var (kind, required) :- KindAndPurpose(artifact);
    if purpose != required then None
    else
      var status :- VerificationStatusOf(id(artifact), a, store, kind, purpose);
      MakeVerification(Verification(status, id(artifact), a, purpose, kind))
  }

  /** A key of the store, trusted for the purpose, signed this digest as an artifact of this kind. */
  ghost predicate Attests(store: TrustStore, a: ArtifactAttestation, kind: ArtifactKind, purpose: ArtifactPurpose, digest: Digest) {
    && a.kind == kind && a.purpose == purpose && a.digest == digest
    && SigningMessage(a.scheme, purpose, kind, digest).Some?
    && exists k :: k in store.keys && k.keyId == a.keyId && purpose in k.purposes
                   && a.signature == SignedBy(k.publicKey, SigningMessage(a.scheme, purpose, kind, digest).value)
  }

  lemma {:induction false} KeyFound(keys: seq<TrustedKey>, keyId: string)
    ensures FindKey(keys, keyId).Some? ==> FindKey(keys, keyId).value in keys && FindKey(keys, keyId).value.keyId == keyId
  {
    if keys != [] {
      KeyFound(keys[1..], keyId);
    }
  }

  lemma {:induction false} KeyUnique(keys: seq<TrustedKey>, k: TrustedKey)
    requires DistinctKeys(KeyIdOf, keys) && k in keys
    ensures FindKey(keys, k.keyId) == Some(k)
  {
    if keys[0] != k {
      var i :| 0 <= i < |keys| && keys[i] == k;
      assert KeyIdOf(keys[0]) != KeyIdOf(keys[i]);
      KeyUnique(keys[1..], k);
    }
  }

  /** Verification never raises on an artifact offered for its own purpose, and accepts exactly what a trusted key attests. */
  lemma {:induction false} VerifiedExactly(
    id: Identity, artifact: DomainValue, a: ArtifactAttestation, store: TrustStore, kind: ArtifactKind, purpose: ArtifactPurpose)
    requires ValidStore(store) && KindAndPurpose(artifact) == Some((kind, purpose))
    ensures VerifyArtifact(id, artifact, a, store, purpose).Some?
    ensures VerifyArtifact(id, artifact, a, store, purpose).value.attestation == a
    ensures VerifyArtifact(id, artifact, a, store, purpose).value.status == Genuine
            <==> Attests(store, a, kind, purpose, id(artifact))
  {
    hide SigningMessage;
    MessageTotal(a.scheme, a.purpose, a.kind, a.digest);
    KeyFound(store.keys, a.keyId);
    if Attests(store, a, kind, purpose, id(artifact)) {
      var k :| && k in store.keys && k.keyId == a.keyId && purpose in k.purposes
               && a.signature == SignedBy(k.publicKey, SigningMessage(a.scheme, purpose, kind, id(artifact)).value);
      KeyUnique(store.keys, k);
    }
  }

  /** The attestation is for this digest, as this kind and for this purpose. */
  predicate Aimed(a: ArtifactAttestation, kind: ArtifactKind, purpose: ArtifactPurpose, digest: Digest) {
    a.kind == kind && a.purpose == purpose && a.digest == digest
  }

  ghost predicate KeyKnown(store: TrustStore, a: ArtifactAttestation) {
    exists k :: k in store.keys && k.keyId == a.keyId
  }

  /** The key of the store that the attestation names made its signature, over what the attestation says. */
  ghost predicate SignedByKnownKey(store: TrustStore, a: ArtifactAttestation) {
    && SigningMessage(a.scheme, a.purpose, a.kind, a.digest).Some?
    && exists k :: k in store.keys && k.keyId == a.keyId
                   && a.signature == SignedBy(k.publicKey, SigningMessage(a.scheme, a.purpose, a.kind, a.digest).value)
  }

  ghost predicate TrustedFor(store: TrustStore, a: ArtifactAttestation, purpose: ArtifactPurpose) {
    exists k :: k in store.keys && k.keyId == a.keyId && purpose in k.purposes
  }

  /** The status names the first obstacle: kind, purpose, digest, key, signature, trust in the key. */
  lemma {:induction false} VerificationIsFirst(
    id: Identity, artifact: DomainValue, a: ArtifactAttestation, store: TrustStore, kind: ArtifactKind, purpose: ArtifactPurpose)
    requires ValidStore(store) && KindAndPurpose(artifact) == Some((kind, purpose))
    ensures VerifyArtifact(id, artifact, a, store, purpose).Some?
    ensures var status := VerifyArtifact(id, artifact, a, store, purpose).value.status;
            var aimed := Aimed(a, kind, purpose, id(artifact));
            && (status == KindMismatch <==> a.kind != kind)
            && (status == PurposeMismatch <==> a.kind == kind && a.purpose != purpose)
            && (status == DigestMismatch <==> a.kind == kind && a.purpose == purpose && a.digest != id(artifact))
            && (status == UnknownKey <==> aimed && !KeyKnown(store, a))
            && (status == SignatureInvalid <==> aimed && KeyKnown(store, a) && !SignedByKnownKey(store, a))
            && (status == KeyNotTrusted <==> aimed && SignedByKnownKey(store, a) && !TrustedFor(store, a, purpose))
            && (status == Genuine <==> aimed && SignedByKnownKey(store, a) && TrustedFor(store, a, purpose))
  {
    hide SigningMessage;
    MessageTotal(a.scheme, a.purpose, a.kind, a.digest);
    KeyFound(store.keys, a.keyId);
    forall k | k in store.keys && k.keyId == a.keyId ensures FindKey(store.keys, a.keyId) == Some(k) {
      KeyUnique(store.keys, k);
    }
  }

  /** What a holder of a trusted key signs for its own purpose verifies. */
  lemma {:induction false} SignThenVerify(id: Identity, artifact: DomainValue, store: TrustStore, k: TrustedKey)
    requires ValidStore(store) && k in store.keys
    requires KindAndPurpose(artifact).Some? && KindAndPurpose(artifact).value.1 in k.purposes
    ensures var purpose := KindAndPurpose(artifact).value.1;
            var a := SignArtifact(id, artifact, k.publicKey, k.keyId, purpose);
            && a.Some?
            && VerifyArtifact(id, artifact, a.value, store, purpose).Some?
            && VerifyArtifact(id, artifact, a.value, store, purpose).value.status == Genuine
  {
    hide SigningMessage;
    var (kind, purpose) := KindAndPurpose(artifact).value;
    MessageTotal(Ed25519, purpose, kind, id(artifact));
    var a := SignArtifact(id, artifact, k.publicKey, k.keyId, purpose).value;
    VerifiedExactly(id, artifact, a, store, kind, purpose);
  }

  /**
    A signature made for one artifact cannot be attached to another: if it verifies, then, absent a
    collision, the artifact verified is the artifact signed, and the signing key is the trusted one.
    */
  lemma {:induction false} VerifiedIsWhatWasSigned(
    id: Identity, signed: DomainValue, key: PublicKey, keyId: string, artifact: DomainValue, a: ArtifactAttestation,
    store: TrustStore)
    requires ValidStore(store) && NoCollision(id, signed, artifact)
    requires KindAndPurpose(artifact).Some? && KindAndPurpose(signed).Some?
    requires SignArtifact(id, signed, key, keyId, KindAndPurpose(signed).value.1).Some?
    requires a.signature == SignArtifact(id, signed, key, keyId, KindAndPurpose(signed).value.1).value.signature
    requires VerifyArtifact(id, artifact, a, store, KindAndPurpose(artifact).value.1).Some?
    requires VerifyArtifact(id, artifact, a, store, KindAndPurpose(artifact).value.1).value.status == Genuine
    ensures artifact == signed
    ensures exists k :: k in store.keys && k.keyId == a.keyId && k.publicKey == key
  {
    hide SigningMessage;
    var (kind, purpose) := KindAndPurpose(artifact).value;
    var (kind', purpose') := KindAndPurpose(signed).value;
    VerifiedExactly(id, artifact, a, store, kind, purpose);
    var k :| && k in store.keys && k.keyId == a.keyId && purpose in k.purposes
             && a.signature == SignedBy(k.publicKey, SigningMessage(a.scheme, purpose, kind, id(artifact)).value);
    MessageTotal(a.scheme, purpose, kind, id(artifact));
    MessageTotal(Ed25519, purpose', kind', id(signed));
    MessageInjective(a.scheme, purpose, kind, id(artifact), Ed25519, purpose', kind', id(signed));
  }
}
