# nest-authz: a verified model of the authorization core

nest-authz decides whether a request may be executed under delegated authority. All its inputs are
immutable values; time and revocations are supplied, never read from the environment. This project
models five linked parts of it and proves what they guarantee, alone and together:

* **Canonical bytes** (`Utf8`, `StrictUtf8`, `Integers`, `Kinds`, `FieldNaming`, `Canonical`,
  `CanonicalTheorems`, `Decoder`, `MapEncoder`, `Schemas`, `SchemaFields`, `Encodability`, `Hexadecimal`): an
  independent reader reads every encoding back; the encoder is injective and prefix-free over
  every record whose digest decides something, so a digest stands for one value unless the hash itself
  collides; it refuses exactly the values that are too long.
* **Delegation** (`Delegation`, `DelegationTheorems`, `Applicability`): validation of a grant chain by
  loops, against a loop-free meaning; attenuation is inclusion of permitted requests.
* **Evaluation** (`Ordering`, `Construction`, `Policies`, `Evaluator`, `EvaluatorLoops`,
  `EvaluatorTotal`, `Conditions`, `EvaluatorTheorems`): total on constructed bundles, gated deny-overrides, independent
  of the order in which policies are written, monotone in context.
* **Approval, attestation and execution** (`Receipt`, `Approval`, `ApprovalTheorems`, `Execution`,
  `ExecutionTheorems`, `Attestation`, `Authentication`, `Trusted`, `Constructors`): a protocol of
  immutable states, whose whole-run guarantees end in `Trusted.TrustedExecutionIsSafe`.
* **Stores and gateway** (`Store`, `StoreSteps`, `StoreTheorems`, `PluginSpec`, `Plugin`,
  `PluginTheorems`, `GatewaySafety`): a transactional table used by any number of clients refines an
  atomic map, and a gateway that keeps operations, revocations and permits in mutable objects admits
  reservations only as `GatewaySafety.ReservationIsSafe` says.

Conventions. `Option` with `None` stands for a `ValueError` (or, where a comment says so, a
`RuntimeError`); a theorem that a result is `Some` says that nothing is raised. The digest function is a
parameter `id` of everything above the encoder, an arbitrary function of domain values; where two
values must not collide, `NoCollision` of exactly that pair is assumed. `Schemas.Sha256` instantiates it
with a hash of canonical bytes. Ed25519 is symbolic: a signature verifies for the key and message it was
made with and for no others. Strings are sequences of Unicode scalar values, integers are unbounded.
Functions that loop and update lists in the source are methods with loops here, proved equal to the
functions the theorems are about; objects with updated fields are classes. A lemma whose text ends in
"exactly" states both directions.

Where the code does not meet a plausible reading of its checks:

* The helper that looks for reference cycles, taken alone, is not the test whether parent references can
  be ranked: it also reports a grant with a proper ancestor of its own identifier, and exactly then it
  differs (`DelegationTheorems.CycleCheckExact`, with the input in `DelegationTheorems.RankedAndReported`).
  Validation returns `INVALID_CHAIN` for repeated identifiers before it calls the helper, and on distinct
  identifiers the two agree (`DelegationTheorems.DistinctIdsRankExactly`).
* The store's program accepts every nonblank result reference, its schema refuses those whose first
  character is NUL, because SQL's `length` stops there. The mark then fails and the record stays reserved
  (`Store.NulReferenceRefused`); on every other nonblank reference both agree (`Store.UpdateHolds`).
* The gateway clears a permit when its own operation is revalidated, but a reservation does not look at
  revocations again: a grant revoked through another operation leaves the permit reservable
  (`GatewaySafety.RevokedElsewhereStillReserved`). That is the only way to reserve over a revoked chain
  (`GatewaySafety.RevokedSincePreparation`).

`dafny verify dfyconfig.toml` checks the whole project.

## Model

| member | source | states |
|---|---|---|
| Utf8.StringInjective | src/nest_authz/canonical.py:115-116 | Strict UTF-8 gives different strings different bytes |
| StrictUtf8.LengthExact | src/nest_authz/canonical.py:115-116 | A character takes one, two, three or four bytes exactly in the four ranges of scalar values, so the encoding is the shortest form |
| StrictUtf8.StrictExactly | src/nest_authz/canonical.py:115-116 | A byte sequence is well-formed by the byte-range table of strict UTF-8 exactly when some string encodes to it, and then one string only |
| Utf8.StringOrderIsByteOrder | src/nest_authz/domain.py:256-274 | Python's string order and the order of strict UTF-8 bytes agree on all scalar-value strings |
| Integers.MagnitudeExact | src/nest_authz/canonical.py:127-136 | The byte count taken from the bit length always fits; no leading zero byte; zero is empty; the bytes read back as the number |
| Canonical.IntegerPayloadExact | src/nest_authz/canonical.py:127-136 | Every unbounded integer has a payload of one sign byte and the minimal magnitude: the sign is 1 exactly for negative numbers and 0 for all others, and zero alone has no magnitude |
| Canonical.IntegerPayloadInjective | src/nest_authz/canonical.py:127-136 | Distinct integers have distinct payloads |
| Canonical.FrameSplit | src/nest_authz/canonical.py:107-112 | A frame announces its own end: equal concatenations starting with frames start with equal frames |
| Canonical.ConcatInjective | src/nest_authz/canonical.py:143-144 | Equal concatenations of frames are concatenations of the same frames |
| Canonical.EncodeDictInjective | src/nest_authz/canonical.py:147-167 | Equal map frames come from the same sorted entries |
| Canonical.EncodeDictOrderFree | src/nest_authz/canonical.py:147-167 | The order in which entries are supplied has no influence on a map frame, nor on its refusal |
| MapEncoder.EncodeMap | src/nest_authz/canonical.py:147-167 | The two loops of the map encoder compute exactly the declarative map encoding, refusals included |
| CanonicalTheorems.SortedEntriesAreTheMap | src/nest_authz/canonical.py:162-167 | Two duplicate-free entry lists sort to the same list exactly when they are the same finite map |
| CanonicalTheorems.EncodeInjective | src/nest_authz/canonical.py:107-174 | Equal encodings mean equal value trees, maps as finite maps; tags and record types never collide |
| CanonicalTheorems.EqualValuesEqualBytes | src/nest_authz/canonical.py:107-174 | Trees that are equal with maps taken as finite maps have equal bytes |
| CanonicalTheorems.CanonicalBytesPrefixFree | src/nest_authz/canonical.py:95-98 | No value's bytes extend another's: whatever follows, the bytes determine value and remainder |
| CanonicalTheorems.CanonicalBytesIdentify | src/nest_authz/canonical.py:95-98 | Bytes are equal exactly when the values are |
| Decoder.EncodingRead | src/nest_authz/canonical.py:107-174 | A reader of the format, written from its side, reads every encoding back as the tree of its value, and leaves over what follows: tags, lengths, boolean and sign bytes, text, order of entries, place of wire type and fields |
| Decoder.CanonicalRead | src/nest_authz/canonical.py:91-98 | Canonical bytes start with the fixed preamble and are read back as the tree of their value |
| Kinds.WireTypesDistinct | src/nest_authz/canonical.py:211-1114 | No two of the modelled record schemas share a wire type |
| Schemas.ToValueInjective | src/nest_authz/canonical.py:211-1114 | The schemas lose nothing: two domain values, of whatever modelled types, with one tree are one value |
| Encodability.EncodableExactly | src/nest_authz/canonical.py:107-174 | A value tree has canonical bytes exactly when no map in it repeats a key and its outermost payload fits the length field; the length of the bytes is known without encoding |
| FieldNaming.NamesDistinct | src/nest_authz/canonical.py:211-1114 | No modelled record schema repeats a field name |
| Encodability.BytesExactly | src/nest_authz/canonical.py:95-174 | A domain value lacks canonical bytes exactly when it is too long for the length field: the refusal of repeated keys never fires on record fields or stored maps |
| Schemas.BytesIdentifyValues | src/nest_authz/canonical.py:95-98 | Canonical bytes identify domain values of all modelled types, and none is a prefix of another's |
| Schemas.CollisionsAreHashCollisions | src/nest_authz/canonical.py:101-104 | The content digest collides on two values only where the hash itself collides on their bytes |
| Hexadecimal.HexRoundTrip | src/nest_authz/domain.py:394-415 | A text is read as a digest exactly when it is that digest's lower-case hexadecimal text |
| SchemaFields.DigestFields | src/nest_authz/canonical.py:236-243 | Every field is written under its own name in `sha256-digest@1` |
| SchemaFields.IdentityFields | src/nest_authz/canonical.py:221-363 | Each is written with every field under its own name: `subject@1`, `action@1`, `resource@1`, `principal@1`, `subject-principal-binding@1`, `approver-subject-principal-binding@1` |
| SchemaFields.DelegationFields | src/nest_authz/canonical.py:364-393 | Each is written with every field under its own name: `authority-scope@1`, `authority-grant@1`, `delegation-chain@1` |
| SchemaFields.StateFields | src/nest_authz/canonical.py:407-436 | Each is written with every field under its own name: `revocation-set@1`, `authorization-state@1`, `verified-authority@1` |
| SchemaFields.ContextFields | src/nest_authz/canonical.py:624-636 | Each is written with every field under its own name: `request-context@1`, `authority-context@1` |
| SchemaFields.RequestFields | src/nest_authz/canonical.py:637-650 | Every field is written under its own name in `authorization-request@2` |
| SchemaFields.AuthorityEvidenceFields | src/nest_authz/canonical.py:557-595 | Each is written with every field under its own name: `authority-bound-evaluation@1`, `authority-applicability-result@1` |
| SchemaFields.HolderEvidenceFields | src/nest_authz/canonical.py:656-674 | Every field is written under its own name in `subject-authority-binding-result@1` |
| SchemaFields.ConditionFields | src/nest_authz/canonical.py:601-623 | Each is written with every field under its own name: `field-reference@1`, `condition@2` |
| SchemaFields.DutyFields | src/nest_authz/canonical.py:693-712 | Each is written with every field under its own name: `obligation@1`, `approval-requirement@2` |
| SchemaFields.RuleFields | src/nest_authz/canonical.py:768-781 | Every field is written under its own name in `rule@3` |
| SchemaFields.PolicyFields | src/nest_authz/canonical.py:782-800 | Each is written with every field under its own name: `policy@3`, `policy-bundle@3` |
| SchemaFields.RuleEvidenceFields | src/nest_authz/canonical.py:685-847 | Each is written with every field under its own name: `rule-evaluation@1`, `reason@1` |
| SchemaFields.EvidenceFields | src/nest_authz/canonical.py:848-867 | Every field is written under its own name in `decision-evidence@5` |
| SchemaFields.DecisionFields | src/nest_authz/canonical.py:868-881 | Every field is written under its own name in `decision@5` |
| SchemaFields.ReceiptFields | src/nest_authz/canonical.py:882-922 | Every field is written under its own name in `decision-receipt@2` |
| SchemaFields.ApproverFields | src/nest_authz/canonical.py:718-757 | Each is written with every field under its own name: `approver-authorization-result@1`, `approval-requirement-state@2` |
| SchemaFields.ApprovalFields | src/nest_authz/canonical.py:923-941 | Every field is written under its own name in `pending-approval@2` |
| SchemaFields.PermitFields | src/nest_authz/canonical.py:947-989 | Every field is written under its own name in `execution-permit@1` |
| SchemaFields.ApplicabilityStatusMembers | src/nest_authz/canonical.py:552-556 | Every member is written with its name under `authority-applicability-status@1` |
| SchemaFields.BindingStatusMembers | src/nest_authz/canonical.py:651-655 | Every member is written with its name under `subject-authority-binding-status@1` |
| SchemaFields.NamespaceMembers | src/nest_authz/canonical.py:596-600 | Every member is written with its name under `field-namespace@1` |
| SchemaFields.OperatorMembers | src/nest_authz/canonical.py:609-613 | Every member is written with its name under `condition-operator@1` |
| SchemaFields.EffectMembers | src/nest_authz/canonical.py:758-762 | Every member is written with its name under `rule-effect@1` |
| SchemaFields.ConditionStatusMembers | src/nest_authz/canonical.py:680-684 | Every member is written with its name under `condition-status@1` |
| SchemaFields.RuleStatusMembers | src/nest_authz/canonical.py:763-767 | Every member is written with its name under `rule-evaluation-status@1` |
| SchemaFields.OutcomeMembers | src/nest_authz/canonical.py:675-679 | Every member is written with its name under `outcome@1` |
| SchemaFields.ApproverStatusMembers | src/nest_authz/canonical.py:713-717 | Every member is written with its name under `approver-authorization-status@1` |
| SchemaFields.RequirementStatusMembers | src/nest_authz/canonical.py:735-739 | Every member is written with its name under `approval-requirement-status@1` |
| SchemaFields.ApprovalStatusMembers | src/nest_authz/canonical.py:740-744 | Every member is written with its name under `approval-status@1` |
| SchemaFields.CollectionFields | src/nest_authz/canonical.py:177-205 | Lists keep their order, maps their names, an absent value is null, and no scalar changes its type |
| SchemaFields.DomainBytesRead | src/nest_authz/canonical.py:95-98 | The canonical bytes of every modelled domain value are read back as the tree its schema describes |
| Construction.CanonicalAscending | src/nest_authz/domain.py:1485-1499 | A collection of distinct identifiers is stored in strictly ascending byte order with the same members |
| Construction.CanonicalOrderFree | src/nest_authz/domain.py:1485-1499 | Permuting the input changes neither the stored collection nor its refusal |
| Construction.CanonicalFixed | src/nest_authz/domain.py:1485-1499 | What is in canonical order is stored unchanged |
| Construction.StringSortIsByteSort | src/nest_authz/domain.py:274-274 | Sorting fields by string puts them in the byte order that rules and the encoder use |
| Construction.CanonicalFieldsLoop | src/nest_authz/domain.py:256-274 | The loop with its seen set accepts, refuses and sorts as the declarative form does |
| Construction.FieldsOrderFree | src/nest_authz/domain.py:256-274 | The order of supplied fields has no influence |
| Construction.FieldsFixed | src/nest_authz/domain.py:309-325 | Condition results given in byte order come back unchanged from the string sort |
| Construction.RequirementLessTotal | src/nest_authz/domain.py:1837-1847 | The sort key of approval requirements is a strict total order on requirements: distinct ones are always ordered, whatever the types of their parameters |
| Construction.RequirementsAscending | src/nest_authz/domain.py:1850-1863 | Duplicate-free requirements sort to a strictly ascending list of the same requirements |
| Construction.RequirementsOrderFree | src/nest_authz/domain.py:1850-1863 | Permuting requirements changes neither the result nor its refusal |
| Construction.FieldLessExact | src/nest_authz/domain.py:299-306 | Parameters are ordered by name, then by type (booleans, integers, nulls, strings), then by value |
| Construction.RequirementOrderExact | src/nest_authz/domain.py:1837-1847 | Requirements are ordered by code, then by the first difference of allowed principals, then of parameters |
| Policies.MakeRequirementExact | src/nest_authz/domain.py:1792-1834 | A requirement is accepted exactly with a nonblank code, distinct principals, at least one, and distinct nonblank parameter names; it keeps them, sorted |
| Policies.SamePredicateExact | src/nest_authz/domain.py:1452-1458 | Two conditions state the same exactly when they differ at most in their identifiers |
| Policies.MakeRuleValid | src/nest_authz/domain.py:1983-2014 | A rule is accepted exactly with distinct identifiers and predicates, at least one condition, distinct requirements, and requirements exactly for the approval effect; it keeps its parts and meets its invariant |
| Policies.MakePolicyValid | src/nest_authz/domain.py:2017-2033 | A policy is accepted exactly with a nonblank identifier and rules of distinct identifiers, at least one; it keeps them in identifier order |
| Policies.MakeBundleValid | src/nest_authz/domain.py:2036-2051 | A bundle is accepted exactly with policies of distinct identifiers, and keeps them in identifier order |
| Policies.BundleOrderFree | src/nest_authz/domain.py:1461-1499 | One reordering, at any depth, of what a caller writes down builds the same bundle or fails in the same way |
| Policies.AnyReorderingSameBundle | src/nest_authz/domain.py:1461-1499 | Any sequence of such reorderings does, so decisions and bytes do not depend on written order |
| Applicability.ApplicableIffContains | src/nest_authz/applicability.py:53-83 | APPLICABLE holds exactly for the requests a scope denotes: its action, its resource, an integer within every bound |
| Applicability.StatusIsFirstObstacle | src/nest_authz/applicability.py:29-83 | Every other status is reported exactly when its obstacle is present and none that comes before is |
| Applicability.AttenuationIsInclusion | src/nest_authz/delegation.py:70-84 | The syntactic check holds exactly when every request applicable under the child is applicable under the parent |
| Applicability.AttenuationReflexive | src/nest_authz/delegation.py:70-84 | A scope attenuates itself |
| Applicability.AttenuationTransitive | src/nest_authz/delegation.py:70-84 | Attenuation composes along a chain |
| Delegation.DuplicateGrantId | src/nest_authz/delegation.py:32-40 | The loop returns the first identifier already seen, and none exactly when all are distinct |
| Delegation.ReferenceCycle | src/nest_authz/delegation.py:43-56 | The loops that walk parent references terminate on every grant list and compute the recursive walk |
| Delegation.PrincipalCycle | src/nest_authz/delegation.py:59-67 | The loop names the first grant whose grantee is already on the principal path |
| Delegation.FindFailure | src/nest_authz/delegation.py:113-161 | The sequence of loops with early returns computes the first failure of the loop-free form |
| DelegationTheorems.ReportedCycleIsReal | src/nest_authz/delegation.py:43-56 | On every grant list a reported identifier lies on a real cycle of parent references |
| DelegationTheorems.NoCycleRanks | src/nest_authz/delegation.py:43-56 | When nothing is reported, a rank exists that every resolved parent reference lowers |
| DelegationTheorems.CycleCheckExact | src/nest_authz/delegation.py:43-56 | On every grant list, nothing is reported exactly when the parent references can be ranked and no grant has a proper ancestor with its own identifier; so the check differs from the rank test exactly on ranked lists with such a grant |
| DelegationTheorems.DistinctIdsRankExactly | src/nest_authz/delegation.py:113-117 | With distinct identifiers, nothing is reported exactly when a rank exists |
| DelegationTheorems.RankedAndReported | src/nest_authz/delegation.py:43-56 | The check taken alone reports a two-grant list that is ranked by position |
| DelegationTheorems.ReportIsFirst | src/nest_authz/delegation.py:43-56 | A report names the first identifier met twice on the walk from the earliest grant whose walk repeats |
| DelegationTheorems.LinkedNeverCycles | src/nest_authz/delegation.py:121-135 | A chain that passes the adjacency checks with distinct identifiers never triggers the reference-cycle check |
| DelegationTheorems.StructuralChecksExact | src/nest_authz/delegation.py:113-147 | The structural checks all pass exactly for chains that are sound in the loop-free sense |
| DelegationTheorems.StateChecksExact | src/nest_authz/delegation.py:148-161 | The state checks all pass exactly when no grant is revoked and the time lies in every half-open window |
| DelegationTheorems.ValidExact | src/nest_authz/delegation.py:113-178 | VALID exactly when the chain is sound and current |
| DelegationTheorems.LastIsEffective | src/nest_authz/delegation.py:163-171 | In a linked chain of distinct identifiers the last grant is the one grant that no grant names as parent |
| DelegationTheorems.ResultVouches | src/nest_authz/delegation.py:98-178 | A VALID result names the one effective grant, its grantee and scope, the supplied time and the digests of chain and state; any other result names an offender and no authority |
| DelegationTheorems.FailureIsFirst | src/nest_authz/delegation.py:113-161 | A failure names the earliest grant failing its check, and every check before it in order passes everywhere; a reference cycle is reported with distinct identifiers, by the first identifier met twice from the earliest grant whose walk repeats |
| DelegationTheorems.PrefixValid | src/nest_authz/delegation.py:113-178 | Every nonempty prefix of a VALID chain is VALID |
| DelegationTheorems.ScopesNarrow | src/nest_authz/delegation.py:141-146 | In a sound chain every scope attenuates every earlier scope |
| DelegationTheorems.RequestInsideEveryScope | src/nest_authz/delegation.py:141-178 | A request applicable under the verified scope is contained in the scope of every grant, root to leaf |
| Conditions.ResolvedExact | src/nest_authz/evaluator.py:42-91 | A field is resolved to a value exactly when it denotes that value in the request, and settles a condition exactly when it cannot exist or its authority context is absent |
| Conditions.ConditionExact | src/nest_authz/evaluator.py:94-138 | An accepted condition is SATISFIED, UNSATISFIED, MISSING_INPUT or ERROR exactly as the value its field denotes stands to its own value under its operator; evaluation never raises |
| Conditions.OperatorLaws | src/nest_authz/evaluator.py:112-138 | On a field that is the integer m, the six comparisons with n decide as m stands to n |
| EvaluatorTheorems.RuleStatusMeaning | src/nest_authz/evaluator.py:141-169 | A rule matches when all conditions hold of the values the request denotes, does not when one is false, and is indeterminate otherwise |
| EvaluatorTotal.RuleTotal | src/nest_authz/evaluator.py:154-169 | Evaluating a valid rule never raises, the constructor accepts the status, and the results keep the rule's own order |
| EvaluatorTotal.FlatAscending | src/nest_authz/evaluator.py:212-217 | The rules of a valid bundle are visited in strictly ascending order of policy and rule identifier |
| EvaluatorTotal.EvaluationsKept | src/nest_authz/domain.py:2148-2168 | Evidence collected in that order has no duplicates and is stored unchanged |
| EvaluatorLoops.EvaluatePolicy | src/nest_authz/evaluator.py:213-217 | The inner loop appends exactly the evaluations and matched rules of one policy |
| EvaluatorLoops.EvaluatePolicies | src/nest_authz/evaluator.py:209-217 | The nested loops collect the evaluation of every rule and the matched rules, in bundle order, or stop at the first error |
| Evaluator.ExtendUniqueLoop | src/nest_authz/evaluator.py:172-178 | The appending loop computes the recursive duplicate-free extension |
| EvaluatorLoops.CollectObligations | src/nest_authz/evaluator.py:275-282 | One loop with an inner extension collects the first-occurrence-ordered union of the obligations of the contributing rules |
| EvaluatorLoops.CollectApprovals | src/nest_authz/evaluator.py:284-288 | The nested loops collect the first-occurrence-ordered union of the approval requirements |
| EvaluatorLoops.EvaluateRequest | src/nest_authz/evaluator.py:181-312 | The whole procedure of loops and early returns computes the specified evaluation, errors included |
| Applicability.ApplicabilityTotal | src/nest_authz/domain.py:1608-1750 | No check of the constructors of the bound evaluations and of the applicability result fires, and the bounds are already in canonical order |
| EvaluatorTotal.AuthorityEvidenceTotal | src/nest_authz/evaluator.py:198-207 | Neither the applicability result nor the holder binding is ever refused by its constructor |
| EvaluatorTotal.EvaluateTotal | src/nest_authz/evaluator.py:181-312 | On a valid bundle no error is raised and no constructor check fires; the decision is the verdict over the full evidence |
| EvaluatorTheorems.OutcomeIsGatedDenyOverrides | src/nest_authz/evaluator.py:227-312 | The outcome equals the declarative gated deny-overrides specification, over denoted values and relations, without the evaluator |
| EvaluatorTheorems.ReasonNamesFirstObstacle | src/nest_authz/evaluator.py:241-312 | The one reason names the first obstacle, or the contribution that decided |
| EvaluatorTheorems.DutiesAreUnions | src/nest_authz/evaluator.py:275-306 | Obligations are the first-occurrence-ordered duplicate-free union over contributing rules, approvals the sorted union; a denial has neither |
| EvaluatorTheorems.DecisionIgnoresValidationTime | src/nest_authz/evaluator.py:181-312 | Authorities over one scope and holder, validated at different times, give one outcome, reason, duties and rule evidence |
| EvaluatorTheorems.ContextMonotone | src/nest_authz/evaluator.py:94-151 | Without EXISTS, adding context keys keeps the outcome, matched rules and duties of a permitted or approval-requiring request |
| Receipt.MadeDecisionValid | src/nest_authz/domain.py:2347-2392 | What the decision constructor accepts has sorted approvals exactly when approval is required, and a matched rule, binding and applicability unless it denies |
| Receipt.ReceiptTotal | src/nest_authz/receipt.py:13-50 | Every decision has a receipt, and the receipt carries its outcome, approvals and the digests of its evidence |
| Receipt.ReceiptIdentifiesDecision | src/nest_authz/receipt.py:27-50 | Absent a collision, one receipt belongs to one decision with all its evidence |
| Approval.CreateTotal | src/nest_authz/approval.py:110-137 | A receipt that requires approval always gives a pending state with exactly its requirements; any other receipt never does |
| Approval.ConstructorAccepts | src/nest_authz/domain.py:2657-2697 | The constructor accepts the receipt's own requirements at their latest time, unchanged, with the derived status |
| Approval.ApproverStatusExact | src/nest_authz/approver.py:14-46 | AUTHORIZED exactly for the bound actor of an allowed principal on this requirement; every other status is the first obstacle |
| Approval.AggregateExact | src/nest_authz/domain.py:2690-2697 | Rejected exactly when some requirement is, expired when one is and none is rejected, approved when all are, pending otherwise |
| Approval.TransitionExact | src/nest_authz/approval.py:36-107 | A transition succeeds exactly for a later-or-equal time, a pending requirement and evidence for exactly it; approving leaves it approved, rejecting rejected, both with that evidence, expiry expired without any; nothing else changes but the clock and the derived status; no constructor check fires |
| Approval.RefusalIsFirst | src/nest_authz/approval.py:36-107 | A refused transition names the first obstacle: time, consumption, an unknown requirement, a decided one, evidence that does not authorize, evidence for another requirement |
| Approval.ConsumeExact | src/nest_authz/approval.py:190-224 | Consumption succeeds exactly for an approved state, its receipt and its own permit, and changes only clock, permit and status; a refusal names the first obstacle |
| ApprovalTheorems.AggregateMoves | src/nest_authz/domain.py:2690-2697 | Deciding a pending requirement never moves the derived status backwards |
| ApprovalTheorems.StepEvolves | src/nest_authz/approval.py:36-224 | A successful step keeps the invariant and all decided requirements, and uses up one of the remaining steps |
| ApprovalTheorems.RunEvolves | src/nest_authz/approval.py:36-224 | Over any run the receipt stays, the clock never goes back, each requirement leaves PENDING at most once, REJECTED stays, EXPIRED leads only to REJECTED, APPROVED only to CONSUMED |
| ApprovalTheorems.RunBounded | src/nest_authz/approval.py:36-224 | The requirement set stays the receipt's, and a run has at most one step a requirement and one more |
| ApprovalTheorems.RunEnds | src/nest_authz/approval.py:36-224 | Nothing follows CONSUMED, and only consumption follows APPROVED |
| ApprovalTheorems.ApprovedByAllowed | src/nest_authz/approver.py:14-46 | In an approved or consumed state every requirement was approved by the bound actor of a principal it allows |
| ApprovalTheorems.EventDecides | src/nest_authz/approval.py:89-107 | A successful event decides the pending requirement it names, as its verb says, and leaves all others alone |
| ApprovalTheorems.DecidedOnce | src/nest_authz/approval.py:36-224 | In a history a requirement is pending until exactly one event decides it |
| ApprovalTheorems.ApprovedByEvents | src/nest_authz/approval.py:36-224 | In every history from a fresh approval that ends approved or consumed, each requirement was approved by exactly one event, with the evidence kept, and rejected or expired by none |
| ApprovalTheorems.RejectionStays | src/nest_authz/approval.py:36-187 | After one successful rejection the approval stays rejected |
| ApprovalTheorems.ChoicesSettle | src/nest_authz/approval.py:89-107 | Decisions on distinct pending requirements at one time all succeed and take effect all at once |
| ApprovalTheorems.OrderOfDecisionsIrrelevant | src/nest_authz/approval.py:89-107 | Such decisions lead to one state in whatever order they are taken |
| Execution.FreshPermit | src/nest_authz/execution.py:113-131 | When every check has passed, the evidence a permit needs is there and no check of the permit constructor fires |
| Execution.RevalidateTotal | src/nest_authz/execution.py:62-147 | Revalidation never raises; a permit is issued exactly when authorized, and binds receipt, approved state, request, policy, chain, state and fresh decision |
| ExecutionTheorems.AuthorizedExactly | src/nest_authz/execution.py:76-111 | AUTHORIZED exactly when the approval is complete and for this receipt, the digests agree, the chain is sound and current, and evaluation still requires exactly the approvals given |
| ExecutionTheorems.EvidenceNamesEffectiveGrant | src/nest_authz/execution.py:62-131 | On a valid chain the evidence of the fresh decision, and of a permit, names the effective grant, its holder and scope, and the supplied request, binding, chain and state |
| ExecutionTheorems.StatusIsFirstObstacle | src/nest_authz/execution.py:76-111 | The status reported is that of the first obstacle in terms of what is supplied: receipt, digests, chain, holder, scope, declarative policy outcome, approvals, policy |
| ExecutionTheorems.ApprovalWindow | src/nest_authz/execution.py:62-111 | With request, policy, chain and binding unchanged, a fully approved receipt authorizes in exactly the states inside every grant window that revoke no grant of the chain; in all others the authority is what fails |
| ExecutionTheorems.AuthorizedIsApprovedIntent | src/nest_authz/execution.py:80-111 | Absent collisions, what is authorized is the request, policy and chain the receipt was issued for |
| ExecutionTheorems.PermitConsumes | src/nest_authz/approval.py:203-224 | The permit of an authorized revalidation consumes the approved state at any time not earlier, after which revalidation always reports APPROVAL_NOT_APPROVED |
| Attestation.MessageTotal | src/nest_authz/attestation.py:47-80 | The length check on message fields never fires for a signing message |
| Attestation.FieldRead | src/nest_authz/attestation.py:47-52 | A message field announces its own end and is read back, whatever follows |
| Attestation.MessageRead | src/nest_authz/attestation.py:55-80 | A signing message is read back as the scheme, purpose, kind and digest it was made of |
| Attestation.MessageInjective | src/nest_authz/attestation.py:55-80 | One signing message is for one scheme, one purpose, one artifact kind and one digest |
| Attestation.GoldenMessage | docs/adr/0010-cryptographic-attestations-and-trust-roots.md:126-131 | The signing message for a policy bundle is the documented vector, for every digest |
| Attestation.AttestableExactly | src/nest_authz/attestation.py:83-95 | Exactly bundles, grants, receipts and permits can be attested, each as its own kind for its own purpose |
| Attestation.MadeStoreValid | src/nest_authz/domain.py:509-530 | A constructed trust store has distinct key identifiers and the keys supplied |
| Attestation.VerifiedExactly | src/nest_authz/attestation.py:163-223 | Verification never raises on an artifact offered for its own purpose, and is VERIFIED exactly when a key of the store, trusted for the purpose, signed this digest as this kind |
| Attestation.VerificationIsFirst | src/nest_authz/attestation.py:181-213 | Every other status of a verification names the first obstacle: kind, purpose, digest, unknown key, signature, trust in the key |
| Attestation.SignThenVerify | src/nest_authz/attestation.py:117-223 | What the holder of a trusted key signs for the artifact's purpose verifies |
| Attestation.VerifiedIsWhatWasSigned | src/nest_authz/attestation.py:117-223 | Absent a collision, a signature that verifies for an artifact was made for that artifact by that trusted key |
| Authentication.BuildRegistry | src/nest_authz/domain.py:665-697 | The loop with its two seen sets accepts exactly one-to-one registries |
| Authentication.ConstructedTrustValid | src/nest_authz/domain.py:504-697 | Trust inputs accepted by their constructors are unique, one-to-one and hold what was supplied |
| Authentication.EvidenceTotal | src/nest_authz/authenticated_delegation.py:156-210 | No check of the per-grant evidence constructor fires, and aggregate-only statuses never occur there |
| Authentication.CollectEvidence | src/nest_authz/authenticated_delegation.py:154-210 | The loop appends the evidence of every grant in chain order |
| Authentication.EvidenceExact | src/nest_authz/authenticated_delegation.py:156-210 | A grant is authenticated exactly when the key bound to its grantor, and to nobody else, signed it, and a root grantor is trusted |
| Authentication.MissingExactly | src/nest_authz/authenticated_delegation.py:159-176 | Evidence says that an attestation is missing exactly when none names the grant |
| Authentication.EvidenceIsFirst | src/nest_authz/authenticated_delegation.py:156-210 | Every other status of a grant names the first obstacle: another artifact, an unknown key, a bad attestation, a key not trusted for grants, a key that is not the grantor's alone, an untrusted root |
| Authentication.UnknownExact | src/nest_authz/authenticated_delegation.py:141-152 | An attestation for a grant outside the chain is reported exactly when there is one, the first one supplied |
| Authentication.AuthenticateTotal | src/nest_authz/authenticated_delegation.py:124-251 | Authentication never raises; a failure names the structural offender, the first unknown attestation, or the first unauthenticated grant |
| Authentication.AuthenticatedExactly | src/nest_authz/authenticated_delegation.py:124-251 | AUTHENTICATED exactly when the chain is VALID, attested grants are the chain's grants, every grant is signed by its grantor's key and the root grantor is trusted |
| Authentication.AuthenticatedChainWasSigned | src/nest_authz/authenticated_delegation.py:124-251 | Whatever grants the signatures in an authenticated chain were made over and with whatever keys, absent collisions they are the grants of the chain, signed with the keys of their grantors |
| Trusted.TrustedPolicyExactly | src/nest_authz/attestation.py:226-248 | A trusted policy exists exactly when a key trusted for policies signed that bundle |
| Trusted.AuthorizeTrustedGrants | src/nest_authz/trusted.py:32-66 | Trusted authorization never raises, decides as specified, and grants only inside the authenticated scope to the bound holder |
| Trusted.RevalidateTrustedTotal | src/nest_authz/trusted.py:69-134 | Trusted revalidation never raises; it is AUTHORIZED exactly when authentication and revalidation both succeed on the same inputs |
| Trusted.AuthorizedChain | src/nest_authz/trusted.py:91-134 | An authorized execution has a sound, current chain signed grant by grant back to a trusted root, containing the request at every link |
| Trusted.TrustedExecutionIsSafe | src/nest_authz/trusted.py:69-134 | End to end: same request, policy and chain as the receipt; every requirement approved by an allowed principal; every grant signed, unrevoked, in window and containing the request; the policy signed by a key trusted for policies; the permit carries the digests of all inputs and the fresh decision |
| Trusted.TrustedExecutionIsSafeOverSha256 | src/nest_authz/trusted.py:69-134 | The same with digests being a hash of canonical bytes that does not collide on the three compared pairs, none of them too long to have bytes |
| Constructors.RuleEvaluationAccepts | src/nest_authz/domain.py:2113-2145 | A rule evaluation is accepted exactly with nonblank identifiers, distinct nonblank condition names, all evaluated, and the status they give |
| Constructors.DecisionEvidenceAccepts | src/nest_authz/domain.py:2181-2239 | Decision evidence is accepted exactly about one request, one authority and one grant, with each rule once |
| Constructors.DecisionAccepts | src/nest_authz/domain.py:2347-2392 | A decision is accepted exactly with a reason, distinct approvals exactly for its outcome, and a grant only on a matched rule, a bound holder and an applicable scope |
| Constructors.BoundAccepts | src/nest_authz/domain.py:1608-1661 | A bound evaluation is accepted exactly with the status its presence, type and value give |
| Constructors.ApplicabilityAccepts | src/nest_authz/domain.py:1703-1750 | An applicability result is accepted exactly with distinct bounds, true matches and the status of its first obstacle |
| Constructors.BindingAccepts | src/nest_authz/domain.py:1579-1604 | A holder binding result is accepted exactly with the status its subject and principal give |
| Constructors.StateAccepts | src/nest_authz/domain.py:1912-1945 | A requirement state is accepted exactly when decisions come with evidence that authorizes them for this requirement, and nothing else does |
| Constructors.ApprovalAccepts | src/nest_authz/domain.py:2635-2711 | An approval state is accepted exactly with the requirements of an approval receipt, each once, none decided later than now, and consumed only when complete, now, by a permit |
| Constructors.ReceiptAccepts | src/nest_authz/domain.py:2491-2613 | A receipt is accepted exactly with distinct approvals for its outcome, evidence digests only beside their authority, and all of them unless it denies |
| Constructors.PermitAccepts | src/nest_authz/domain.py:2744-2845 | A permit is accepted exactly for a decision that required approval of a bound, applicable request, all digests agreeing with its evidence |
| Constructors.AuthorizationAccepts | src/nest_authz/domain.py:2968-3082 | A revalidation result is accepted exactly with the digests of its evidence, and a permit for exactly them beside AUTHORIZED |
| Constructors.VerificationAccepts | src/nest_authz/domain.py:578-632 | A verification result is accepted exactly when a mismatch is one and a verified artifact mismatches in nothing |
| Constructors.GrantEvidenceAccepts | src/nest_authz/domain.py:1041-1115 | Grant evidence is accepted exactly when it is empty for a missing attestation and otherwise has the status its verification, key and root give |
| Constructors.AuthenticationAccepts | src/nest_authz/domain.py:1239-1386 | An authentication result is accepted exactly with an authority on a valid chain and complete evidence, or with an offender and none |
| Constructors.TrustedAuthorizationAccepts | src/nest_authz/domain.py:2415-2466 | A trusted authorization is accepted exactly with the digests its decision was taken on |
| Constructors.TrustedExecutionAccepts | src/nest_authz/domain.py:3106-3212 | A trusted revalidation is accepted exactly unrevalidated when not authenticated, and otherwise on the same digests and validation with the status of both |
| Constructors.RecordAccepts | src/nest_authz/domain.py:2892-2916 | A record is accepted exactly with its own permit's identity and the one nonblank reference its state asks for |
| Constructors.InsertAccepts | src/nest_authz/sqlite_execution_store.py:23-56 | An insert raises exactly for a new identity whose row fails a check or whose permit has a row, and otherwise adds the row unless the identity is taken |
| Store.IdTextInjective | src/nest_authz/domain.py:2878-2879 | Execution identity texts and digest texts are equal only for equal digests |
| Store.RowRoundTrip | src/nest_authz/sqlite_execution_store.py:168-192 | A record's row is read back as the same record, and passes the schema's checks exactly when SQL finds its references nonempty |
| Store.InsertHolds | src/nest_authz/sqlite_execution_store.py:222-237 | The insert adds the reserved record exactly when the permit has none; the second uniqueness constraint cannot fire |
| Store.UpdateHolds | src/nest_authz/sqlite_execution_store.py:316-335 | The guarded update of a reserved row matches it and finishes exactly its record, and raises exactly when the schema refuses the reference |
| Store.NulReferenceRefused | src/nest_authz/sqlite_execution_store.py:35-51 | For both terminal marks, the length check of the schema refuses exactly those nonblank references that start with NUL, and the record stays reserved |
| Store.ExecutionStore.Reserve | src/nest_authz/sqlite_execution_store.py:194-250 | A reservation is one atomic step on the id-to-record map, or a rollback without a trace after a database failure; after the commit nothing raises, and the status fits the record |
| Store.ExecutionStore.Get | src/nest_authz/sqlite_execution_store.py:252-271 | A read returns the record of the identity, if there is one, and fails exactly when the database does |
| Store.ExecutionStore.MarkTerminal | src/nest_authz/sqlite_execution_store.py:273-349 | A terminal mark is one atomic step, refusals by program and schema included, or a rollback without a trace after a database failure |
| Store.ExecutionStore.MarkSucceeded | src/nest_authz/sqlite_execution_store.py:351-364 | A success is stored and returned as SUCCEEDED with its result and no failure, on the reserved record of the permit only |
| Store.ExecutionStore.MarkFailed | src/nest_authz/sqlite_execution_store.py:366-379 | A failure is stored and returned as FAILED with its reference and no result, on the reserved record of the permit only |
| StoreSteps.InsertNeverFails | src/nest_authz/sqlite_execution_store.py:222-237 | In every reachable interleaving an insert violates no constraint |
| StoreSteps.StepInv | src/nest_authz/sqlite_execution_store.py:148-166 | Every statement of every client, every failure and every crash keeps the invariant |
| StoreSteps.CallKept | src/nest_authz/sqlite_execution_store.py:148-166 | A step leaves all other clients alone, and a client stays in the call it began until it is idle again |
| StoreSteps.StepRefines | src/nest_authz/sqlite_execution_store.py:148-349 | Every step is invisible or is one atomic call with its atomic response |
| StoreSteps.ReservePossible | src/nest_authz/sqlite_execution_store.py:211-250 | From every reachable state with the lock free an idle client can complete a reservation, with the atomic answer |
| StoreSteps.MarkPossible | src/nest_authz/sqlite_execution_store.py:307-349 | From every reachable state with the lock free an idle client can complete a mark of a reserved record, with the atomic answer |
| StoreTheorems.NewOnce | src/nest_authz/sqlite_execution_store.py:194-209 | In a history of atomic calls one permit is newly reserved at most once, and its record stays |
| StoreTheorems.RecordExplained | src/nest_authz/sqlite_execution_store.py:194-349 | In a history of atomic calls a permit has a record exactly if it was reserved; it is SUCCEEDED with a result exactly if a mark of that success succeeded, FAILED likewise, RESERVED while no mark has |
| StoreTheorems.CommittedExplained | src/nest_authz/sqlite_execution_store.py:148-379 | In every interleaving the committed row is explained by the decided calls in the same way |
| StoreTheorems.ReservedAtMostOnce | src/nest_authz/sqlite_execution_store.py:211-250 | In every interleaving of any number of clients, with rollbacks and crashes, at most one is told NEW_RESERVATION for a permit, and then the row is committed |
| StoreTheorems.TerminalForEver | src/nest_authz/sqlite_execution_store.py:307-342 | Committed rows are never lost, and terminal rows never change |
| StoreTheorems.Linearizable | src/nest_authz/sqlite_execution_store.py:148-349 | Every answer is the atomic store's answer in the order of decisions, and the table holds the resulting records |
| StoreTheorems.AnswersOwnCallInOrder | src/nest_authz/sqlite_execution_store.py:148-349 | The answer a client gets is to the call it is in, and was decided after every answer returned before that call began |
| Plugin.ScenarioExecutionStore.Reserve | src/nest_authz/integrations/nandatown/plugin.py:81-102 | The in-run ledger reserves atomically and grows by one exactly for a new permit |
| Plugin.NestAuthzAuth.constructor | src/nest_authz/integrations/nandatown/plugin.py:133-151 | The gateway starts without operations, revocations or records |
| Plugin.NestAuthzAuth.Authorize | src/nest_authz/integrations/nandatown/plugin.py:215-292 | Does to the objects what the specified command does to the state |
| Plugin.NestAuthzAuth.Approve | src/nest_authz/integrations/nandatown/plugin.py:294-367 | Does to the objects what the specified command does to the state |
| Plugin.NestAuthzAuth.PrepareExecution | src/nest_authz/integrations/nandatown/plugin.py:369-443 | Does to the objects what the specified command does to the state, replacing the stored permit by whatever revalidation issued |
| Plugin.NestAuthzAuth.ReserveExecution | src/nest_authz/integrations/nandatown/plugin.py:445-482 | Does to the ledger what the specified command does to the state |
| PluginSpec.Revoke | src/nest_authz/integrations/nandatown/plugin.py:391-402 | After a revocation exactly the old and the supplied grants are revoked, still in ascending order |
| PluginTheorems.ExecuteKeepsValid | src/nest_authz/integrations/nandatown/plugin.py:158-190 | Every command leads from a valid state to a valid state |
| PluginSpec.FindProfile | src/nest_authz/integrations/nandatown/adapter.py:145-155 | The first configured profile with this identifier and agent, and none exactly when there is none |
| PluginTheorems.RevokedExactly | src/nest_authz/integrations/nandatown/plugin.py:391-402 | In every run a grant is revoked at a time exactly if it was earlier or a revocation since then named it; nothing is taken back |
| PluginTheorems.RevocationsSorted | src/nest_authz/integrations/nandatown/plugin.py:391-402 | In every run the revoked grants are kept as the strictly sorted tuple of a revocation set |
| PluginTheorems.RevocationClearsPermit | src/nest_authz/integrations/nandatown/plugin.py:391-443 | Revalidating an operation whose chain has a revoked grant refuses and clears its stored permit |
| PluginTheorems.HeldPermitPrepared | src/nest_authz/integrations/nandatown/plugin.py:404-420 | A permit an operation holds was issued by its last revalidation, which authorized, and the operation still has the profile, request and receipt it had then |
| PluginTheorems.LedgerIsReservations | src/nest_authz/integrations/nandatown/plugin.py:78-102 | At any time the ledger holds exactly the permits reserved so far, as many as there were admitted reservations |
| PluginTheorems.ReservedOncePrepared | src/nest_authz/integrations/nandatown/plugin.py:445-482 | Every admitted reservation is of the permit that the last revalidation of its operation issued, and no permit digest is admitted twice |
| GatewaySafety.AuthenticatedDecision | src/nest_authz/integrations/nandatown/adapter.py:199-275 | The adapter decides, on an authenticated profile, exactly as a fresh evaluation on validated authority; otherwise there is no decision |
| GatewaySafety.OpenedOk | src/nest_authz/integrations/nandatown/plugin.py:278-291 | Opening an operation never raises: its receipt is for the decision that required approval, and its approval is pending |
| GatewaySafety.AuthorizeMeaning | src/nest_authz/integrations/nandatown/plugin.py:215-292 | Authorizing raises only on blank arguments, admits exactly what the declarative outcome permits, and opens an operation exactly when it requires approval |
| GatewaySafety.ApprovingApproves | src/nest_authz/integrations/nandatown/plugin.py:323-367 | A well-formed message of a sender who may approve is answered by the transition of the named operation, kept if it succeeds and raised if not |
| GatewaySafety.ApproveMeaning | src/nest_authz/integrations/nandatown/plugin.py:294-367 | Only the bound actor of an allowed principal, naming the configured requirement, changes an approval, by one valid transition |
| GatewaySafety.RunOperations | src/nest_authz/integrations/nandatown/plugin.py:130-482 | In every run every operation is about a request that needed approval, and its approval is for exactly its receipt |
| GatewaySafety.AuthorizedIsSafe | src/nest_authz/integrations/nandatown/plugin.py:404-420 | When preparation authorizes, the chain vouches for the request and every requirement was approved by a bound, allowed actor |
| GatewaySafety.HeldOperationKept | src/nest_authz/integrations/nandatown/plugin.py:215-443 | While an operation holds a permit, its approval stays the complete one it was prepared with |
| GatewaySafety.RevokedSincePreparation | src/nest_authz/integrations/nandatown/plugin.py:445-482 | When a permit is held, a grant of its chain is revoked exactly if a message since its preparation revoked one for another operation |
| GatewaySafety.RevokedElsewhereStillReserved | src/nest_authz/integrations/nandatown/plugin.py:391-482 | In every state with such a permit, revoking a grant of its chain for another operation leaves it reservable: the reservation is admitted |
| GatewaySafety.ReservationIsSafe | src/nest_authz/integrations/nandatown/plugin.py:369-482 | End to end over runs: every admitted reservation is of exactly the permit that the last revalidation of its operation issued, for the same request, profile, receipt and approval; the request was then approved as required by bound actors, the chain sound, current, signed and wide enough, and the permit carries the digests of all of it; no permit digest is admitted twice |

## Left out

- Ed25519 and SHA-256 internals: symbolic signatures and an arbitrary hash; collision freedom is assumed of named pairs only.
- Payloads longer than their length field: a value without canonical bytes (`Encodability.BytesExactly` says which) raises in the source; `Schemas.Sha256` gives it some digest, and the results that need it ask for the value to fit.
- Exact-type `TypeError` guards, factory tokens and frozen classes: the type system gives these.
- Blank and encodability checks on identifiers: grant identifiers and bound names are nonblank by their type, and blank checks that a later constructor repeats on evaluated data are modelled; those on the other names of requests, obligations and scopes are not. Dafny strings are always encodable.
- Constructor checks that only restate a record built next to them (`VerifiedAuthority`, `AuthorityValidationResult`): their records are built by one function each from the fields they check.
- Kinds.WireTypesDistinct: covers 46 of the 79 wire types. The other 33 (attestations, keys, registries, trust stores, trusted policies, authentication and execution results, execution identities and records) repeat the modelled schemas.
- Schemas.ToValueInjective: covers the records of those 46 schemas. Digests of the others are carried as evidence, and where two are compared both come from one value in one call.
- Trust-input digests: an authentication result compares those it carries with those of its authenticated authority (domain.py, `DelegationAuthenticationResult._from_authentication`). Both come from the same inputs of one call, so they are equal by construction and omitted.
- The loops that canonicalise bounds, conditions, identified records and requirement states: they have the shape of `Construction.CanonicalFieldsLoop` and are functions here.
- SQLite itself: file access, pragmas, timeouts and SQL text. A table is a map by primary key with the schema's constraints; the insert's conflict clause is taken to apply before the second uniqueness constraint, and a database error may occur at any statement.
- Reads outside a transaction in the step system: `get` sees the committed table and changes nothing, so it is not a step.
- One execution per approval: a permit includes the state digest, so one approved state can yield different permits in different states; single use is proved for each exact permit.
- Exactly-once external effects, and the authenticity of subject bindings, logical time and revocations: inputs the code does not decide.
- The gateway's message authentication, events, logical clock conversion, demo keys, roles and trace validators: plumbing around a simulator that is not part of this model.
- The order of the gateway's set of revoked grants: the set is kept as the sorted tuple a `RevocationSet` makes of it.
- Benchmarks and scripts: no authorization content.
