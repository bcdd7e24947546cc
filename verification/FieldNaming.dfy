/** The field names of every modelled record schema are distinct, so a record is an ordinary map of its fields. */
module FieldNaming {
  import opened Kinds

  predicate DistinctNames(keys: seq<string>) {
    forall i, j :: 0 <= i < j < |keys| ==> keys[i] != keys[j]
  }

  lemma {:induction false} TrustNames()
    ensures DistinctNames(FieldNames(Sha256DigestKind))
    ensures DistinctNames(FieldNames(SubjectPrincipalBindingKind))
    ensures DistinctNames(FieldNames(ApproverSubjectPrincipalBindingKind))
    ensures DistinctNames(FieldNames(AuthorityScopeKind))
    ensures DistinctNames(FieldNames(AuthorizationStateKind))
    ensures DistinctNames(FieldNames(VerifiedAuthorityKind))
  {
    assert var n := FieldNames(Sha256DigestKind); |n[0]| == 9 && |n[1]| == 5;
    assert var n := FieldNames(SubjectPrincipalBindingKind); |n[0]| == 7 && |n[1]| == 9;
    assert var n := FieldNames(ApproverSubjectPrincipalBindingKind); |n[0]| == 7 && |n[1]| == 9;
    assert var n := FieldNames(AuthorityScopeKind); |n[0]| == 6 && |n[1]| == 8 && |n[2]| == 20;
    assert var n := FieldNames(AuthorizationStateKind); |n[0]| == 12 && |n[1]| == 11;
    assert var n := FieldNames(VerifiedAuthorityKind); |n[0]| == 8 && |n[1]| == 9 && |n[2]| == 5 && |n[3]| == 12;
    assert var n := FieldNames(VerifiedAuthorityKind); |n[4]| == 12 && |n[5]| == 12 && n[3][10] == 'a';
    assert var n := FieldNames(VerifiedAuthorityKind); n[4][10] == 's' && n[5][10] == 's' && n[4][4] == 'n';
    assert var n := FieldNames(VerifiedAuthorityKind); n[5][4] == 'e';
  }

  lemma {:induction false} GrantNames()
    ensures DistinctNames(FieldNames(AuthorityGrantKind))
    ensures DistinctNames(FieldNames(FieldReferenceKind))
  {
    assert var n := FieldNames(AuthorityGrantKind); |n[0]| == 10 && |n[1]| == 7 && |n[2]| == 7 && |n[3]| == 5;
    assert var n := FieldNames(AuthorityGrantKind); |n[4]| == 15 && |n[5]| == 10 && |n[6]| == 11 && n[0][9] == 'r';
    assert var n := FieldNames(AuthorityGrantKind); n[5][9] == 'm' && n[1][6] == 'r' && n[2][6] == 'e';
    assert var n := FieldNames(FieldReferenceKind); |n[0]| == 9 && |n[1]| == 4;
  }

  lemma {:induction false} RequestNames()
    ensures DistinctNames(FieldNames(AuthorityContextKind))
    ensures DistinctNames(FieldNames(AuthorizationRequestKind))
  {
    assert var n := FieldNames(AuthorityContextKind); |n[0]| == 10 && |n[1]| == 10 && n[0][9] == 'r';
    assert var n := FieldNames(AuthorityContextKind); n[1][9] == 's';
    assert var n := FieldNames(AuthorizationRequestKind); |n[0]| == 7 && |n[1]| == 6 && |n[2]| == 8 && |n[3]| == 7;
    assert var n := FieldNames(AuthorizationRequestKind); |n[4]| == 17 && n[0][5] == 'c' && n[3][5] == 'x';
  }

  lemma {:induction false} BoundNames()
    ensures DistinctNames(FieldNames(AuthorityBoundEvaluationKind))
  {
    assert var n := FieldNames(AuthorityBoundEvaluationKind); |n[0]| == 4 && |n[1]| == 11 && |n[2]| == 7;
    assert var n := FieldNames(AuthorityBoundEvaluationKind); |n[3]| == 14 && |n[4]| == 6;
  }

  lemma {:induction false} ApplicabilityNames()
    ensures DistinctNames(FieldNames(AuthorityApplicabilityResultKind))
  {
    assert var n := FieldNames(AuthorityApplicabilityResultKind); |n[0]| == 6 && |n[1]| == 14 && |n[2]| == 16;
    assert var n := FieldNames(AuthorityApplicabilityResultKind); |n[3]| == 12 && |n[4]| == 12 && |n[5]| == 18;
    assert var n := FieldNames(AuthorityApplicabilityResultKind); |n[6]| == 15 && |n[7]| == 14 && |n[8]| == 14;
    assert var n := FieldNames(AuthorityApplicabilityResultKind); |n[9]| == 17 && |n[10]| == 16 && |n[11]| == 16;
    assert var n := FieldNames(AuthorityApplicabilityResultKind); |n[12]| == 17 && n[1][13] == 't';
    assert var n := FieldNames(AuthorityApplicabilityResultKind); n[7][13] == 'n' && n[8][13] == 's';
    assert var n := FieldNames(AuthorityApplicabilityResultKind); n[2][15] == 't' && n[10][15] == 'e';
    assert var n := FieldNames(AuthorityApplicabilityResultKind); n[11][15] == 's' && n[3][4] == 'n';
    assert var n := FieldNames(AuthorityApplicabilityResultKind); n[4][4] == 'e' && n[9][16] == 'e';
    assert var n := FieldNames(AuthorityApplicabilityResultKind); n[12][16] == 's';
  }

  lemma {:induction false} HolderNames()
    ensures DistinctNames(FieldNames(SubjectAuthorityBindingResultKind))
  {
    assert var n := FieldNames(SubjectAuthorityBindingResultKind); |n[0]| == 6 && |n[1]| == 14 && |n[2]| == 16;
    assert var n := FieldNames(SubjectAuthorityBindingResultKind); |n[3]| == 15 && |n[4]| == 7 && |n[5]| == 19;
    assert var n := FieldNames(SubjectAuthorityBindingResultKind); |n[6]| == 18;
  }

  lemma {:induction false} DecisionEvidenceNames()
    ensures DistinctNames(FieldNames(DecisionEvidenceKind))
  {
    assert var n := FieldNames(DecisionEvidenceKind); |n[0]| == 20 && |n[1]| == 14 && |n[2]| == 16 && |n[3]| == 23;
    assert var n := FieldNames(DecisionEvidenceKind); |n[4]| == 25;
  }

  lemma {:induction false} RuleNames()
    ensures DistinctNames(FieldNames(ConditionKind))
    ensures DistinctNames(FieldNames(RuleKind))
  {
    assert var n := FieldNames(ConditionKind); |n[0]| == 10 && |n[1]| == 5 && |n[2]| == 8 && |n[3]| == 5;
    assert var n := FieldNames(ConditionKind); n[1][4] == 'd' && n[3][4] == 'e';
    assert var n := FieldNames(RuleKind); |n[0]| == 10 && |n[1]| == 6 && |n[2]| == 10 && |n[3]| == 11;
    assert var n := FieldNames(RuleKind); |n[4]| == 21 && n[0][9] == 'r' && n[2][9] == 's';
  }

  lemma {:induction false} DutyNames()
    ensures DistinctNames(FieldNames(ReasonKind))
    ensures DistinctNames(FieldNames(ObligationKind))
    ensures DistinctNames(FieldNames(ApprovalRequirementKind))
  {
    assert var n := FieldNames(ReasonKind); |n[0]| == 4 && |n[1]| == 7;
    assert var n := FieldNames(ObligationKind); |n[0]| == 4 && |n[1]| == 10;
    assert var n := FieldNames(ApprovalRequirementKind); |n[0]| == 4 && |n[1]| == 18 && |n[2]| == 10;
  }

  lemma {:induction false} PolicyNames()
    ensures DistinctNames(FieldNames(PolicyKind))
    ensures DistinctNames(FieldNames(PolicyBundleKind))
    ensures DistinctNames(FieldNames(RuleEvaluationKind))
  {
    assert var n := FieldNames(PolicyKind); |n[0]| == 10 && |n[1]| == 5;
    assert var n := FieldNames(PolicyBundleKind); |n[0]| == 19 && |n[1]| == 8;
    assert var n := FieldNames(RuleEvaluationKind); |n[0]| == 9 && |n[1]| == 7 && |n[2]| == 6 && |n[3]| == 6;
    assert var n := FieldNames(RuleEvaluationKind); |n[4]| == 17 && n[2][5] == 't' && n[3][5] == 's';
  }

  lemma {:induction false} ApprovalNames()
    ensures DistinctNames(FieldNames(ApproverAuthorizationResultKind))
    ensures DistinctNames(FieldNames(ApprovalRequirementStateKind))
  {
    assert var n := FieldNames(ApproverAuthorizationResultKind); |n[0]| == 6 && |n[1]| == 5 && |n[2]| == 7;
    assert var n := FieldNames(ApproverAuthorizationResultKind); |n[3]| == 20 && |n[4]| == 21;
    assert var n := FieldNames(ApprovalRequirementStateKind); |n[0]| == 11 && |n[1]| == 6 && |n[2]| == 13;
    assert var n := FieldNames(ApprovalRequirementStateKind); |n[3]| == 12;
  }

  lemma {:induction false} StateNames()
    ensures DistinctNames(FieldNames(PendingApprovalKind))
  {
    assert var n := FieldNames(PendingApprovalKind); |n[0]| == 7 && |n[1]| == 14 && |n[2]| == 18 && |n[3]| == 12;
    assert var n := FieldNames(PendingApprovalKind); |n[4]| == 11 && |n[5]| == 23 && |n[6]| == 6;
  }

  lemma {:induction false} DecisionNames()
    ensures DistinctNames(FieldNames(DecisionKind))
  {
    assert var n := FieldNames(DecisionKind); |n[0]| == 7 && |n[1]| == 7 && |n[2]| == 8 && |n[3]| == 11;
    assert var n := FieldNames(DecisionKind); |n[4]| == 21 && n[0][6] == 'e' && n[1][6] == 's';
  }

  lemma {:induction false} ReceiptNames()
    ensures DistinctNames(FieldNames(DecisionReceiptKind))
  {
    var n := FieldNames(DecisionReceiptKind);
    assert |n[0]| == 14;
    assert |n[1]| == 20;
    assert |n[2]| == 26;
    assert |n[3]| == 23;
    assert |n[4]| == 26;
    assert |n[5]| == 41;
    assert |n[6]| == 39;
    assert |n[7]| == 15;
    assert |n[8]| == 7;
    assert |n[9]| == 21;
    assert n[2][18] == 'y';
    assert n[4][18] == 'e';
  }

  lemma {:induction false} PermitNames()
    ensures DistinctNames(FieldNames(ExecutionPermitKind))
  {
    var n := FieldNames(ExecutionPermitKind);
    assert |n[0]| == 23;
    assert |n[1]| == 21;
    assert |n[2]| == 22;
    assert |n[3]| == 28;
    assert |n[4]| == 31;
    assert |n[5]| == 34;
    assert |n[6]| == 34;
    assert |n[7]| == 25;
    assert |n[8]| == 23;
    assert |n[9]| == 8;
    assert n[0][22] == 't';
    assert n[8][22] == 'y';
    assert n[5][26] == 'e';
    assert n[6][26] == 'y';
  }

  /** No modelled schema repeats a field name. */
  lemma {:induction false} NamesDistinct(k: Kind)
    ensures DistinctNames(FieldNames(k))
  {
    OneName(k);
    hide FieldNames, DistinctNames;
    TrustNames();
    GrantNames();
    RequestNames();
    BoundNames();
    ApplicabilityNames();
    HolderNames();
    DecisionEvidenceNames();
    RuleNames();
    DutyNames();
    PolicyNames();
    ApprovalNames();
    StateNames();
    DecisionNames();
    ReceiptNames();
    PermitNames();
  }

  lemma {:induction false} OneName(k: Kind)
    ensures Arity(k) == 1 ==> DistinctNames(FieldNames(k))
  {
    WireCodeIsKindCode(k);
    hide FieldNames, Arity, WireCode, WireType, KindCode;
  }
}
