/** Whole runs of an approval: what no run undoes, how long a run can be, and when order does not matter. */
module ApprovalTheorems {
  import opened Wrappers
  import opened Ordering
  import opened Domain
  import opened Construction
  import opened Receipt
  import opened Approval

  // ----- Steps

  datatype Event =
    | Decide(requirement: ApprovalRequirement, verb: Verb, time: int)
    | Spend(permit: ExecutionPermit, at: int)

  function Apply(id: Identity, a: PendingApproval, e: Event): Result<PendingApproval, TransitionError> {
    match e
    case Decide(requirement, verb, time) => Transition(a, requirement, verb, time)
    case Spend(permit, at) => Consume(id, a, permit, at)
  }

  ghost predicate ConsistentEvent(e: Event) {
    e.Decide? && !e.verb.Expire? ==> Consistent(e.verb.evidence)
  }

  ghost predicate Step(id: Identity, a: PendingApproval, b: PendingApproval) {
    exists e :: ConsistentEvent(e) && Apply(id, a, e) == Success(b)
  }

  /** A rejection stays; an expiry can only become a rejection; an approval can only be consumed. */
  predicate StatusMoves(s: ApprovalStatus, t: ApprovalStatus) {
    match s
    case ApprovalPending => true
    case ApprovalRejected => t == ApprovalRejected
    case ApprovalExpired => t == ApprovalExpired || t == ApprovalRejected
    case ApprovalApproved => t == ApprovalApproved || t == ApprovalConsumed
    case ApprovalConsumed => t == ApprovalConsumed
  }

  /** What can become of a state: a decided requirement keeps its decision, evidence and time for ever. */
  ghost predicate Evolves(a: PendingApproval, b: PendingApproval) {
    && b.receipt == a.receipt && b.receiptDigest == a.receiptDigest && a.logicalTime <= b.logicalTime
    && |b.states| == |a.states|
    && (forall k :: 0 <= k < |a.states| ==>
          && b.states[k].requirement == a.states[k].requirement
          && (a.states[k].status != Pending ==> b.states[k] == a.states[k]))
    && StatusMoves(a.status, b.status)
  }

  function PendingCount(ss: seq<RequirementState>): (n: nat)
    ensures n <= |ss|
  {
    if ss == [] then 0 else (if ss[0].status == Pending then 1 else 0) + PendingCount(ss[1..])
  }

  /** The number of successful steps still possible. */
  function StepsLeft(a: PendingApproval): nat {
    if a.status == ApprovalConsumed then 0 else PendingCount(a.states) + 1
  }

  lemma {:induction false} DecidingCounts(ss: seq<RequirementState>, k: nat, s: RequirementState)
    requires k < |ss| && ss[k].status == Pending && s.status != Pending
    ensures PendingCount(ss[k := s]) == PendingCount(ss) - 1
  {
    if k == 0 {
      assert ss[k := s][1..] == ss[1..];
    } else {
      DecidingCounts(ss[1..], k - 1, s);
      assert ss[k := s][1..] == ss[1..][k - 1 := s];
    }
  }

  /** Deciding a pending requirement moves the derived status forward. */
  lemma {:induction false} AggregateMoves(ss: seq<RequirementState>, k: nat, s: RequirementState)
    requires k < |ss| && ss[k].status == Pending
    ensures StatusMoves(Aggregate(ss), Aggregate(ss[k := s]))
  {
    var after := ss[k := s];
    assert !AllApproved(ss);
    forall status | HasRequirementStatus(ss, status) && status != Pending ensures HasRequirementStatus(after, status) {
      var i :| 0 <= i < |ss| && ss[i].status == status;
      assert after[i] == ss[i];
    }
  }

  lemma {:induction false} DecisionEvolves(a: PendingApproval, k: nat, verb: Verb, time: int)
    requires ValidApproval(a) && k < |a.states| && a.states[k].status == Pending && a.logicalTime <= time
    ensures Evolves(a, After(a, k, verb, time)) && StepsLeft(After(a, k, verb, time)) < StepsLeft(a)
  {
    hide RequirementLess, Aggregate, ValidState, ValidReceipt, AllApproved, RequirementsOf, StatusMoves;
    var b := After(a, k, verb, time);
    PendingNotConsumed(a, k);
    DecidingCounts(a.states, k, b.states[k]);
    AggregateMoves(a.states, k, b.states[k]);
  }

  lemma {:induction false} StepEvolves(id: Identity, a: PendingApproval, b: PendingApproval)
    requires ValidApproval(a) && Step(id, a, b)
    ensures ValidApproval(b) && Evolves(a, b) && StepsLeft(b) < StepsLeft(a)
  {
    hide RequirementLess, Transition, Consume, ValidApproval, Aggregate;
    var e :| ConsistentEvent(e) && Apply(id, a, e) == Success(b);
    match e
    case Decide(requirement, verb, time) =>
      TransitionExact(a, requirement, verb, time);
      var k: nat :| && k < |a.states| && a.states[k].requirement == requirement && a.states[k].status == Pending
                    && b == After(a, k, verb, time) && ValidApproval(b) && a.logicalTime <= time;
      DecisionEvolves(a, k, verb, time);
    case Spend(permit, at) =>
      ConsumeExact(id, a, permit, at);
  }

  // ----- Runs

  /** States reached one after another by successful steps; failed ones leave the state as it was. */
  ghost predicate IsRun(id: Identity, run: seq<PendingApproval>) {
    && run != [] && ValidApproval(run[0])
    && forall i :: 0 <= i < |run| - 1 ==> Step(id, run[i], run[i + 1])
  }

  lemma {:induction false} RunValid(id: Identity, run: seq<PendingApproval>, j: nat)
    requires IsRun(id, run) && j < |run|
    ensures ValidApproval(run[j])
  {
    hide ValidApproval, Step, Evolves;
    if j > 0 {
      RunValid(id, run, j - 1);
      assert Step(id, run[j - 1], run[j - 1 + 1]);
      StepEvolves(id, run[j - 1], run[j]);
    }
  }

  lemma {:induction false} EvolvesTransitive(a: PendingApproval, b: PendingApproval, c: PendingApproval)
    requires Evolves(a, b) && Evolves(b, c)
    ensures Evolves(a, c)
  {
    forall k | 0 <= k < |a.states|
      ensures c.states[k].requirement == a.states[k].requirement
      ensures a.states[k].status != Pending ==> c.states[k] == a.states[k]
    {
      assert b.states[k].requirement == a.states[k].requirement;
    }
  }

  /**
    From any state of a run to any later one: the receipt and its requirements stay, the clock
    never goes back, each requirement is decided at most once, and the aggregate status only
    moves forward. A run has at most one step a requirement and one more.
    */
  lemma {:induction false} RunEvolves(id: Identity, run: seq<PendingApproval>, i: nat, j: nat)
    requires IsRun(id, run) && i <= j < |run|
    ensures Evolves(run[i], run[j])
    ensures j - i <= StepsLeft(run[i]) - StepsLeft(run[j])
    decreases j
  {
    hide ValidApproval, Step, StepsLeft, RequirementLess;
    if i < j {
      RunEvolves(id, run, i, j - 1);
      RunValid(id, run, j - 1);
      assert Step(id, run[j - 1], run[j - 1 + 1]);
      StepEvolves(id, run[j - 1], run[j]);
      hide Evolves;
      EvolvesTransitive(run[i], run[j - 1], run[j]);
    }
  }

  lemma {:induction false} RunBounded(id: Identity, run: seq<PendingApproval>)
    requires IsRun(id, run)
    ensures |run| <= |run[0].receipt.approvals| + 2
    ensures forall j :: 0 <= j < |run| ==> RequirementsOf(run[j].states) == run[0].receipt.approvals
  {
    hide Step, RequirementLess, Aggregate;
    RunEvolves(id, run, 0, |run| - 1);
    forall j: nat | j < |run| ensures RequirementsOf(run[j].states) == run[0].receipt.approvals {
      RunEvolves(id, run, 0, j);
      RunValid(id, run, j);
    }
  }

  /** Nothing follows a consumed state, and only consumption follows an approved one. */
  lemma {:induction false} RunEnds(id: Identity, run: seq<PendingApproval>, i: nat)
    requires IsRun(id, run) && i < |run|
    ensures run[i].status == ApprovalConsumed ==> i == |run| - 1
    ensures run[i].status == ApprovalApproved && i < |run| - 1 ==> run[i + 1].status == ApprovalConsumed && i + 1 == |run| - 1
  {
    hide RequirementLess, Step, IsRun;
    RunEvolves(id, run, i, |run| - 1);
    RunValid(id, run, i);
    if run[i].status == ApprovalApproved {
      NothingPending(run[i].states) by {
        assert AllApproved(run[i].states);
      }
      if i < |run| - 1 {
        RunEvolves(id, run, i, i + 1);
      }
    }
  }

  lemma {:induction false} NothingPending(ss: seq<RequirementState>)
    requires AllApproved(ss)
    ensures PendingCount(ss) == 0
  {
    if ss != [] {
      NothingPending(ss[1..]);
    }
  }

  /** An approved or consumed state holds, for every requirement, an actor bound to an allowed principal. */
  lemma {:induction false} ApprovedByAllowed(a: PendingApproval, k: nat)
    requires ValidApproval(a) && (a.status == ApprovalApproved || a.status == ApprovalConsumed)
    requires k < |a.receipt.approvals|
    ensures |a.states| == |a.receipt.approvals|
    ensures var s := a.states[k];
            && s.requirement == a.receipt.approvals[k] && s.status == Approved && s.authorization.Some?
            && var e := s.authorization.value;
               && e.actor == e.binding.subject && e.binding.principal in s.requirement.allowedPrincipals
               && e.required == e.attempted == s.requirement
  {
    hide RequirementLess;
    assert AllApproved(a.states);
    assert a.states[k].requirement == a.receipt.approvals[k] && ValidState(a.states[k]);
  }

  // ----- Who decided what

  /** A run with the successful events that made it. */
  ghost predicate IsHistory(id: Identity, run: seq<PendingApproval>, events: seq<Event>) {
    && |run| == |events| + 1 && ValidApproval(run[0])
    && forall i :: 0 <= i < |events| ==> ConsistentEvent(events[i]) && Apply(id, run[i], events[i]) == Success(run[i + 1])
  }

  lemma {:induction false} HistoryIsRun(id: Identity, run: seq<PendingApproval>, events: seq<Event>)
    requires IsHistory(id, run, events)
    ensures IsRun(id, run)
  {
    hide ValidApproval, Apply;
    forall i | 0 <= i < |run| - 1 ensures Step(id, run[i], run[i + 1]) {
      assert ConsistentEvent(events[i]) && Apply(id, run[i], events[i]) == Success(run[i + 1]);
    }
  }

  predicate DecidesOn(e: Event, requirement: ApprovalRequirement) {
    e.Decide? && e.requirement == requirement
  }

  /** A successful event decides the requirement it names, which was pending, as its verb says, and leaves all others alone. */
  lemma {:induction false} EventDecides(id: Identity, a: PendingApproval, e: Event, b: PendingApproval, k: nat)
    requires ValidApproval(a) && ConsistentEvent(e) && Apply(id, a, e) == Success(b) && k < |a.states|
    ensures |b.states| == |a.states|
    ensures DecidesOn(e, a.states[k].requirement) ==>
              a.states[k].status == Pending && b.states[k] == Decided(a.states[k].requirement, e.verb, e.time)
    ensures !DecidesOn(e, a.states[k].requirement) ==> b.states[k] == a.states[k]
  {
    hide RequirementLess, Transition, Consume, ValidApproval, Aggregate, Decided;
    match e
    case Decide(requirement, verb, time) =>
      TransitionExact(a, requirement, verb, time);
      var i: nat :| && i < |a.states| && a.states[i].requirement == requirement && a.states[i].status == Pending
                    && b == After(a, i, verb, time);
      ValidAscending(a);
      StatesDistinct(a.states);
    case Spend(permit, at) =>
      ConsumeExact(id, a, permit, at);
  }

  /** Event `i` alone decided the requirement, and `s` is what it made of it. */
  ghost predicate DecidedBy(events: seq<Event>, n: nat, requirement: ApprovalRequirement, s: RequirementState, i: nat)
    requires n <= |events|
  {
    && i < n && DecidesOn(events[i], requirement) && s == Decided(requirement, events[i].verb, events[i].time)
    && forall j :: 0 <= j < n && j != i ==> !DecidesOn(events[j], requirement)
  }

  /** A requirement is pending until one event decides it, and no other event ever does. */
  lemma {:induction false} DecidedOnce(id: Identity, run: seq<PendingApproval>, events: seq<Event>, n: nat, k: nat)
    requires IsHistory(id, run, events) && n <= |events| && k < |run[0].states| && run[0].states[k].status == Pending
    ensures |run[n].states| == |run[0].states|
    ensures var requirement := run[0].states[k].requirement;
            if run[n].states[k].status == Pending then
              run[n].states[k] == run[0].states[k] && forall j :: 0 <= j < n ==> !DecidesOn(events[j], requirement)
            else exists i: nat :: DecidedBy(events, n, requirement, run[n].states[k], i)
    decreases n
  {
    hide ValidApproval, Apply, Evolves, Step;
    if n > 0 {
      DecidedOnce(id, run, events, n - 1, k);
      HistoryIsRun(id, run, events);
      RunValid(id, run, n - 1);
      assert ConsistentEvent(events[n - 1]) && Apply(id, run[n - 1], events[n - 1]) == Success(run[n - 1 + 1]);
      EventDecides(id, run[n - 1], events[n - 1], run[n], k);
      var requirement := run[0].states[k].requirement;
      if run[n - 1].states[k].status == Pending {
        if DecidesOn(events[n - 1], requirement) {
          assert DecidedBy(events, n, requirement, run[n].states[k], n - 1);
        }
      } else {
        var i: nat :| DecidedBy(events, n - 1, requirement, run[n - 1].states[k], i);
        assert DecidedBy(events, n, requirement, run[n].states[k], i);
      }
    }
  }

  /**
    In every history from a fresh approval that ends approved or consumed, every requirement of the
    receipt was approved by exactly one event, with the evidence the state carries, and no event
    rejected it or let it expire.
    */
  lemma {:induction false} ApprovedByEvents(
    id: Identity, receipt: DecisionReceipt, start: int, run: seq<PendingApproval>, events: seq<Event>, k: nat)
    requires ValidReceipt(receipt) && IsHistory(id, run, events) && CreatePending(id, receipt, start) == Some(run[0])
    requires run[|events|].status == ApprovalApproved || run[|events|].status == ApprovalConsumed
    requires k < |receipt.approvals|
    ensures |run[|events|].states| == |receipt.approvals|
    ensures var s := run[|events|].states[k];
            exists i: nat ::
              && i < |events| && DecidesOn(events[i], receipt.approvals[k]) && events[i].verb.Approve?
              && s == RequirementState(receipt.approvals[k], Approved, Some(events[i].verb.evidence), events[i].time)
              && forall j :: 0 <= j < |events| && j != i ==> !DecidesOn(events[j], receipt.approvals[k])
  {
    hide RequirementLess, ValidReceipt, Apply, CreatePending, IsHistory, Aggregate, ValidState, ConsistentEvent;
    var n := |events|;
    CreateTotal(id, receipt, start);
    HistoryStarts(id, run, events);
    DecidedOnce(id, run, events, n, k);
    HistoryIsRun(id, run, events);
    RunValid(id, run, n);
    RunEvolves(id, run, 0, n);
    hide IsRun;
    ApprovedByAllowed(run[n], k);
    var i: nat :| DecidedBy(events, n, receipt.approvals[k], run[n].states[k], i);
    assert events[i].verb.Approve?;
  }

  lemma {:induction false} HistoryStarts(id: Identity, run: seq<PendingApproval>, events: seq<Event>)
    requires IsHistory(id, run, events)
    ensures |run| == |events| + 1 && ValidApproval(run[0])
  {
  }

  /** After one successful rejection the approval stays rejected. */
  lemma {:induction false} RejectionStays(id: Identity, run: seq<PendingApproval>, events: seq<Event>, i: nat, j: nat)
    requires IsHistory(id, run, events) && i < j <= |events| && events[i].Decide? && events[i].verb.Reject?
    ensures run[j].status == ApprovalRejected
  {
    hide RequirementLess, Apply, ValidApproval, Aggregate, ConsistentEvent;
    HistoryIsRun(id, run, events);
    RunValid(id, run, i);
    RejectionRejects(id, run[i], events[i], run[i + 1]);
    RunEvolves(id, run, i + 1, j);
  }

  lemma {:induction false} RejectionRejects(id: Identity, a: PendingApproval, e: Event, b: PendingApproval)
    requires ValidApproval(a) && ConsistentEvent(e) && Apply(id, a, e) == Success(b) && e.Decide? && e.verb.Reject?
    ensures b.status == ApprovalRejected
  {
    hide RequirementLess, Transition, ValidApproval, Aggregate;
    TransitionExact(a, e.requirement, e.verb, e.time);
    var k: nat :| && k < |a.states| && a.states[k].requirement == e.requirement && a.states[k].status == Pending
                  && b == After(a, k, e.verb, e.time);
    EventDecides(id, a, e, b, k);
    assert b.states[k] in b.states;
    AggregateExact(b.states);
  }

  // ----- Decisions at one instant

  datatype Choice = Choice(requirement: ApprovalRequirement, verb: Verb)

  function RunChoices(a: PendingApproval, cs: seq<Choice>, time: int): Result<PendingApproval, TransitionError>
    decreases |cs|
  {
    if cs == [] then Success(a)
    else
      var next := Transition(a, cs[0].requirement, cs[0].verb, time);
      if next.Failure? then next else RunChoices(next.value, cs[1..], time)
  }

  predicate DistinctChoices(cs: seq<Choice>) {
    forall i, j :: 0 <= i < j < |cs| ==> cs[i].requirement != cs[j].requirement
  }

  ghost predicate AllAllowed(a: PendingApproval, cs: seq<Choice>, time: int) {
    forall c :: c in cs ==>
      Allowed(a, c.requirement, c.verb, time) && (!c.verb.Expire? ==> Consistent(c.verb.evidence))
  }

  function ChoiceFor(cs: seq<Choice>, requirement: ApprovalRequirement): Option<Verb> {
    if cs == [] then None
    else if cs[0].requirement == requirement then Some(cs[0].verb)
    else ChoiceFor(cs[1..], requirement)
  }

  function Settle(s: RequirementState, verb: Option<Verb>, time: int): RequirementState {
    if verb.None? then s else Decided(s.requirement, verb.value, time)
  }

  function SettleAll(ss: seq<RequirementState>, cs: seq<Choice>, time: int): (r: seq<RequirementState>)
    ensures |r| == |ss| && forall k :: 0 <= k < |ss| ==> r[k] == Settle(ss[k], ChoiceFor(cs, ss[k].requirement), time)
  {
    seq(|ss|, k requires 0 <= k < |ss| => Settle(ss[k], ChoiceFor(cs, ss[k].requirement), time))
  }

  /** Every choice at once. */
  function Settled(a: PendingApproval, cs: seq<Choice>, time: int): PendingApproval {
    if cs == [] then a
    else
      var ss := SettleAll(a.states, cs, time);
      a.(states := ss, logicalTime := time, status := Aggregate(ss))
  }

  lemma {:induction false} NoChoiceFor(cs: seq<Choice>, requirement: ApprovalRequirement)
    requires forall c :: c in cs ==> c.requirement != requirement
    ensures ChoiceFor(cs, requirement) == None
  {
    if cs != [] {
      NoChoiceFor(cs[1..], requirement);
    }
  }

  lemma {:induction false} ChoiceForMember(cs: seq<Choice>, c: Choice)
    requires c in cs && DistinctChoices(cs)
    ensures ChoiceFor(cs, c.requirement) == Some(c.verb)
  {
    if cs[0].requirement == c.requirement {
      var k :| 0 <= k < |cs| && cs[k] == c;
      assert k == 0;
    } else {
      ChoiceForMember(cs[1..], c);
    }
  }

  /** A choice about another requirement stays open, and settling commutes with it. */
  lemma {:induction false} ChoiceKept(a: PendingApproval, k: nat, first: Verb, time: int, c: Choice)
    requires ValidApproval(a) && k < |a.states| && a.states[k].requirement != c.requirement
    requires Allowed(a, c.requirement, c.verb, time)
    ensures Allowed(After(a, k, first, time), c.requirement, c.verb, time)
  {
    var i :| 0 <= i < |a.states| && a.states[i].requirement == c.requirement && a.states[i].status == Pending;
    assert After(a, k, first, time).states[i] == a.states[i];
  }

  lemma {:induction false} SettleFirst(a: PendingApproval, k: nat, cs: seq<Choice>, time: int)
    requires DistinctRequirements(a.states) && cs != [] && DistinctChoices(cs)
    requires k < |a.states| && a.states[k].requirement == cs[0].requirement
    ensures Settled(After(a, k, cs[0].verb, time), cs[1..], time) == Settled(a, cs, time)
  {
    var b := After(a, k, cs[0].verb, time);
    NoChoiceFor(cs[1..], cs[0].requirement);
    forall i | 0 <= i < |a.states|
      ensures Settle(a.states[i], ChoiceFor(cs, a.states[i].requirement), time)
              == Settle(b.states[i], ChoiceFor(cs[1..], b.states[i].requirement), time)
    {
      if i != k {
        assert a.states[i].requirement != a.states[k].requirement;
      }
    }
    assert SettleAll(b.states, cs[1..], time) == SettleAll(a.states, cs, time);
    if cs[1..] == [] {
      assert b.states == SettleAll(a.states, cs, time);
    }
  }

  /** Decisions on distinct pending requirements at one time take effect all at once. */
  lemma {:induction false} ChoicesSettle(a: PendingApproval, cs: seq<Choice>, time: int)
    requires ValidApproval(a) && DistinctChoices(cs) && AllAllowed(a, cs, time)
    ensures RunChoices(a, cs, time) == Success(Settled(a, cs, time))
    decreases |cs|
  {
    hide RequirementLess, Transition, ValidApproval, Aggregate, Settled, Allowed;
    if cs != [] {
      var c := cs[0];
      assert c in cs;
      TransitionExact(a, c.requirement, c.verb, time);
      var k: nat :| && k < |a.states| && a.states[k].requirement == c.requirement && a.states[k].status == Pending
                    && Transition(a, c.requirement, c.verb, time).value == After(a, k, c.verb, time)
                    && ValidApproval(After(a, k, c.verb, time));
      forall d | d in cs[1..] ensures Allowed(After(a, k, c.verb, time), d.requirement, d.verb, time) {
        var i :| 0 <= i < |cs[1..]| && cs[1..][i] == d;
        assert cs[0].requirement != cs[i + 1].requirement;
        ChoiceKept(a, k, c.verb, time, d);
      }
      ChoicesSettle(After(a, k, c.verb, time), cs[1..], time);
      StatesDistinct(a.states) by {
        assert ValidApproval(a) && Ascending(RequirementLess, RequirementsOf(a.states)) by {
          ValidAscending(a);
        }
      }
      SettleFirst(a, k, cs, time);
    } else {
      assert Settled(a, cs, time) == a by {
        NothingSettled(a, time);
      }
    }
  }

  lemma {:induction false} ValidAscending(a: PendingApproval)
    requires ValidApproval(a)
    ensures Ascending(RequirementLess, RequirementsOf(a.states))
  {
    hide RequirementLess;
  }

  lemma {:induction false} NothingSettled(a: PendingApproval, time: int)
    ensures Settled(a, [], time) == a
  {
  }

  /** Decisions taken at one instant give one state, in whatever order they arrive. */
  lemma {:induction false} OrderOfDecisionsIrrelevant(a: PendingApproval, cs: seq<Choice>, ds: seq<Choice>, time: int)
    requires ValidApproval(a) && DistinctChoices(cs) && AllAllowed(a, cs, time)
    requires multiset(cs) == multiset(ds)
    ensures RunChoices(a, cs, time).Success? && RunChoices(a, ds, time) == RunChoices(a, cs, time)
  {
    hide RequirementLess, ValidApproval, Aggregate, Allowed, Consistent, RunChoices;
    SameMembers(cs, ds);
    PermutedChoices(cs, ds);
    ChoicesSettle(a, cs, time);
    ChoicesSettle(a, ds, time);
    forall requirement ensures ChoiceFor(cs, requirement) == ChoiceFor(ds, requirement) {
      if c :| c in cs && c.requirement == requirement {
        ChoiceForMember(cs, c);
        ChoiceForMember(ds, c);
      } else {
        NoChoiceFor(cs, requirement);
        NoChoiceFor(ds, requirement);
      }
    }
    assert SettleAll(a.states, cs, time) == SettleAll(a.states, ds, time);
    assert |cs| == |multiset(cs)| && |ds| == |multiset(ds)|;
  }

  lemma {:induction false} PermutedChoices(cs: seq<Choice>, ds: seq<Choice>)
    requires DistinctChoices(cs) && multiset(cs) == multiset(ds)
    ensures DistinctChoices(ds)
  {
    SameMembers(cs, ds);
    forall i, j | 0 <= i < j < |ds| ensures ds[i].requirement != ds[j].requirement {
      assert ds[i] in ds && ds[j] in ds;
      var a :| 0 <= a < |cs| && cs[a] == ds[i];
      if ds[i] == ds[j] {
        TwiceInT(cs, ds, i, j, a);
      } else {
        var b :| 0 <= b < |cs| && cs[b] == ds[j];
      }
    }
  }
}
