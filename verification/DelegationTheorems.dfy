/** What validation means: cycles, soundness and completeness, prefixes, and attenuation along a chain. */
module DelegationTheorems {
  import opened Wrappers
  import opened Domain
  import opened Applicability
  import opened Delegation

  // ----- Parent cycles

  /** Some grant of that identifier names `parent`, and a grant of that identifier exists. */
  ghost predicate Edge(gs: Grants, child: string, parent: string) {
    && (exists i :: 0 <= i < |gs| && gs[i].identifier == child && gs[i].parent == Some(parent))
    && exists k :: 0 <= k < |gs| && gs[k].identifier == parent
  }

  ghost predicate Path(gs: Grants, path: seq<string>) {
    forall i :: 0 <= i < |path| - 1 ==> Edge(gs, path[i], path[i + 1])
  }

  /** A nonempty walk along parent references from an identifier back to itself. */
  ghost predicate OnCycle(gs: Grants, id: string) {
    exists path: seq<string> :: |path| >= 2 && path[0] == id && path[|path| - 1] == id && Path(gs, path)
  }

  lemma {:induction false} WalkFindsCycle(gs: Grants, current: nat, path: seq<string>)
    requires current < |gs| && Path(gs, path + [gs[current].identifier])
    requires Walk(gs, current, path).Some?
    ensures OnCycle(gs, Walk(gs, current, path).value)
    decreases |Ids(gs) - Members(path)|
  {
    var id := gs[current].identifier;
    if id in path {
      var k :| 0 <= k < |path| && path[k] == id;
      var loop := (path + [id])[k..];
      forall i | 0 <= i < |loop| - 1 ensures Edge(gs, loop[i], loop[i + 1]) {
        assert Edge(gs, (path + [id])[k + i], (path + [id])[k + i + 1]);
      }
      assert loop[0] == id && loop[|loop| - 1] == id && Path(gs, loop);
    } else {
      var next := Parent(gs, current).value;
      FewerUnvisited(gs, current, path);
      assert Edge(gs, id, gs[next].identifier);
      var longer := path + [id] + [gs[next].identifier];
      forall i | 0 <= i < |longer| - 1 ensures Edge(gs, longer[i], longer[i + 1]) {
        if i < |path| {
          assert Edge(gs, (path + [id])[i], (path + [id])[i + 1]);
        }
      }
      WalkFindsCycle(gs, next, path + [id]);
    }
  }

  lemma {:induction false} CycleFromStart(gs: Grants, start: nat)
    requires FirstCycleFrom(gs, start).Some?
    ensures OnCycle(gs, FirstCycleFrom(gs, start).value)
    decreases |gs| - start
  {
    if Walk(gs, start, []).Some? {
      WalkFindsCycle(gs, start, []);
    } else {
      CycleFromStart(gs, start + 1);
    }
  }

  /** On every grant list, a reported identifier lies on a real cycle of parent references. */
  lemma {:induction false} ReportedCycleIsReal(gs: Grants)
    requires ReferenceCycleOf(gs).Some?
    ensures OnCycle(gs, ReferenceCycleOf(gs).value)
  {
    CycleFromStart(gs, 0);
  }

  /** A rank that every resolved parent reference lowers. */
  ghost predicate Ranked(gs: Grants, rank: seq<nat>) {
    && |rank| == |gs|
    && forall i: nat :: i < |gs| && Parent(gs, i).Some? ==> rank[Parent(gs, i).value] < rank[i]
  }

  /** The number of steps a walk takes before it leaves the list. */
  function Steps(gs: Grants, current: nat, path: seq<string>): nat
    requires current < |gs|
    decreases |Ids(gs) - Members(path)|
  {
    if gs[current].identifier in path || Parent(gs, current).None? then 0
    else
      FewerUnvisited(gs, current, path);
      1 + Steps(gs, Parent(gs, current).value, path + [gs[current].identifier])
  }

  /** A walk that meets nothing twice does not depend on where it came from. */
  lemma {:induction false} ShorterHistory(gs: Grants, current: nat, path: seq<string>, less: seq<string>)
    requires current < |gs| && Walk(gs, current, path).None? && Members(less) <= Members(path)
    ensures Walk(gs, current, less).None? && Steps(gs, current, less) == Steps(gs, current, path)
    decreases |Ids(gs) - Members(path)|
  {
    var id := gs[current].identifier;
    assert id !in path && id !in less by {
      assert id in less ==> id in Members(less);
      assert id in Members(path) ==> id in path;
    }
    if Parent(gs, current).Some? {
      FewerUnvisited(gs, current, path);
      FewerUnvisited(gs, current, less);
      assert Members(less + [id]) <= Members(path + [id]) by {
        forall x | x in less + [id] ensures x in path + [id] {
          assert x in less ==> x in Members(less);
        }
      }
      ShorterHistory(gs, Parent(gs, current).value, path + [id], less + [id]);
    }
  }

  lemma {:induction false} NoCycleFrom(gs: Grants, start: nat, i: nat)
    requires FirstCycleFrom(gs, start).None? && start <= i < |gs|
    ensures Walk(gs, i, []).None?
    decreases i - start
  {
    if start < i {
      NoCycleFrom(gs, start + 1, i);
    }
  }

  /** No report means the parent references can be ranked. */
  lemma {:induction false} NoCycleRanks(gs: Grants) returns (rank: seq<nat>)
    requires ReferenceCycleOf(gs).None?
    ensures Ranked(gs, rank)
  {
    rank := seq(|gs|, i requires 0 <= i < |gs| => Steps(gs, i, []));
    forall i: nat | i < |gs| && Parent(gs, i).Some? ensures rank[Parent(gs, i).value] < rank[i] {
      var next := Parent(gs, i).value;
      NoCycleFrom(gs, 0, i);
      FewerUnvisited(gs, i, []);
      assert [] + [gs[i].identifier] == [gs[i].identifier];
      ShorterHistory(gs, next, [gs[i].identifier], []);
    }
  }

  // ----- Trails of parent references

  /** Positions, each the parent the walk moves to from the one before. */
  ghost predicate Trail(gs: Grants, t: seq<nat>) {
    && t != [] && (forall i :: 0 <= i < |t| ==> t[i] < |gs|)
    && forall i :: 0 <= i < |t| - 1 ==> Parent(gs, t[i]) == Some(t[i + 1])
  }

  function IdsAlong(gs: Grants, t: seq<nat>): (r: seq<string>)
    requires forall i :: 0 <= i < |t| ==> t[i] < |gs|
    ensures |r| == |t| && forall i :: 0 <= i < |t| ==> r[i] == gs[t[i]].identifier
  {
    seq(|t|, i requires 0 <= i < |t| => gs[t[i]].identifier)
  }

  /** The trail's last identifier is the first that it meets twice. */
  ghost predicate FirstRepetition(gs: Grants, t: seq<nat>)
    requires Trail(gs, t)
  {
    var before := IdsAlong(gs, t[..|t| - 1]);
    gs[t[|t| - 1]].identifier in before && Distinct(before)
  }

  predicate Distinct(ids: seq<string>) {
    forall i, j :: 0 <= i < j < |ids| ==> ids[i] != ids[j]
  }

  /** Some grant has a proper ancestor that carries the grant's own identifier. */
  ghost predicate RevisitsId(gs: Grants) {
    exists t: seq<nat> :: IsRevisit(gs, t)
  }

  ghost predicate IsRevisit(gs: Grants, t: seq<nat>) {
    |t| >= 2 && Trail(gs, t) && gs[t[0]].identifier == gs[t[|t| - 1]].identifier
  }

  ghost predicate Rankable(gs: Grants) {
    exists rank: seq<nat> :: Ranked(gs, rank)
  }

  /** A walk that ends meets every identifier of the trails it begins once. */
  lemma {:induction false} WalkMeetsOnce(gs: Grants, t: seq<nat>, path: seq<string>)
    requires Trail(gs, t) && Walk(gs, t[0], path).None?
    ensures Distinct(IdsAlong(gs, t))
    ensures forall i :: 0 <= i < |t| ==> gs[t[i]].identifier !in path
    decreases |t|
  {
    if |t| > 1 {
      var id := gs[t[0]].identifier;
      assert Parent(gs, t[0]) == Some(t[1]);
      WalkMeetsOnce(gs, t[1..], path + [id]);
      var rest := IdsAlong(gs, t[1..]);
      forall i | 0 < i < |t| ensures gs[t[i]].identifier == rest[i - 1] && rest[i - 1] !in path + [id] {
        assert t[1..][i - 1] == t[i];
      }
    }
  }

  lemma {:induction false} Lengthen(gs: Grants, t: seq<nat>)
    requires Trail(gs, t) && Parent(gs, t[|t| - 1]).Some?
    ensures var longer := t + [Parent(gs, t[|t| - 1]).value];
            && Trail(gs, longer)
            && IdsAlong(gs, longer[..|longer| - 1]) == IdsAlong(gs, t[..|t| - 1]) + [gs[t[|t| - 1]].identifier]
  {
    var longer := t + [Parent(gs, t[|t| - 1]).value];
    assert longer[..|longer| - 1] == t;
  }

  lemma {:induction false} DistinctSnoc(ids: seq<string>, id: string)
    requires Distinct(ids) && id !in ids
    ensures Distinct(ids + [id])
  {
  }

  lemma {:induction false} WalkStep(gs: Grants, current: nat, path: seq<string>)
    requires current < |gs| && Walk(gs, current, path).Some? && gs[current].identifier !in path
    ensures Parent(gs, current).Some?
    ensures Walk(gs, Parent(gs, current).value, path + [gs[current].identifier]) == Walk(gs, current, path)
  {
  }

  lemma {:induction false} WalkStops(gs: Grants, current: nat, path: seq<string>)
    requires current < |gs| && gs[current].identifier in path
    ensures Walk(gs, current, path) == Some(gs[current].identifier)
  {
  }

  /** A reported walk runs along a trail to its first repetition. */
  lemma {:induction false} WalkRepeats(gs: Grants, t: seq<nat>) returns (whole: seq<nat>)
    requires Trail(gs, t) && Walk(gs, t[|t| - 1], IdsAlong(gs, t[..|t| - 1])).Some?
    requires Distinct(IdsAlong(gs, t[..|t| - 1]))
    ensures Trail(gs, whole) && FirstRepetition(gs, whole) && whole[0] == t[0]
    ensures Walk(gs, t[|t| - 1], IdsAlong(gs, t[..|t| - 1])) == Some(gs[whole[|whole| - 1]].identifier)
    decreases |Ids(gs) - Members(IdsAlong(gs, t[..|t| - 1]))|
  {
    hide Trail, IdsAlong, Parent, Walk, Distinct, Ids, Members;
    TrailInside(gs, t);
    var last, path := t[|t| - 1], IdsAlong(gs, t[..|t| - 1]);
    if gs[last].identifier in path {
      WalkStops(gs, last, path);
      whole := t;
    } else {
      WalkStep(gs, last, path);
      FewerUnvisited(gs, last, path);
      DistinctSnoc(path, gs[last].identifier);
      Lengthen(gs, t);
      whole := WalkRepeats(gs, t + [Parent(gs, last).value]);
    }
  }

  lemma {:induction false} TrailInside(gs: Grants, t: seq<nat>)
    requires Trail(gs, t)
    ensures t != [] && forall i :: 0 <= i < |t| ==> t[i] < |gs|
  {
  }

  /** No trail from this grant meets an identifier twice. */
  ghost predicate NeverRepeats(gs: Grants, start: nat) {
    forall t: seq<nat> :: Trail(gs, t) && t[0] == start ==> !FirstRepetition(gs, t)
  }

  /** From the earliest grant whose walk repeats an identifier, this is the first repeated. */
  ghost predicate RepeatsFirst(gs: Grants, id: string) {
    exists t: seq<nat> ::
      && Trail(gs, t) && FirstRepetition(gs, t) && gs[t[|t| - 1]].identifier == id
      && forall k: nat :: k < t[0] ==> NeverRepeats(gs, k)
  }

  lemma {:induction false} SilentNeverRepeats(gs: Grants, start: nat)
    requires start < |gs| && Walk(gs, start, []).None?
    ensures NeverRepeats(gs, start)
  {
    forall t: seq<nat> | Trail(gs, t) && t[0] == start ensures !FirstRepetition(gs, t) {
      WalkMeetsOnce(gs, t, []);
      var ids, last := IdsAlong(gs, t), |t| - 1;
      assert IdsAlong(gs, t[..last]) == ids[..last] && ids[last] == gs[t[last]].identifier;
    }
  }

  lemma {:induction false} ReportFrom(gs: Grants, start: nat)
    requires FirstCycleFrom(gs, start).Some? && forall k: nat :: k < start ==> NeverRepeats(gs, k)
    ensures RepeatsFirst(gs, FirstCycleFrom(gs, start).value)
    decreases |gs| - start
  {
    if Walk(gs, start, []).Some? {
      assert IdsAlong(gs, [start][..0]) == [];
      var t := WalkRepeats(gs, [start]);
      assert t[0] == start;
    } else {
      SilentNeverRepeats(gs, start);
      ReportFrom(gs, start + 1);
    }
  }

  /** A report is made at the first repetition met from the earliest grant whose walk repeats. */
  lemma {:induction false} ReportIsFirst(gs: Grants)
    requires ReferenceCycleOf(gs).Some?
    ensures RepeatsFirst(gs, ReferenceCycleOf(gs).value)
  {
    ReportFrom(gs, 0);
  }

  /** Along a ranked list, a walk that is not reported can only be stopped by a revisited identifier. */
  lemma {:induction false} RankedWalkEnds(gs: Grants, rank: seq<nat>, t: seq<nat>)
    requires Ranked(gs, rank) && !RevisitsId(gs) && Trail(gs, t)
    ensures Walk(gs, t[|t| - 1], IdsAlong(gs, t[..|t| - 1])).None?
    decreases rank[t[|t| - 1]]
  {
    var last := t[|t| - 1];
    var path := IdsAlong(gs, t[..|t| - 1]);
    if gs[last].identifier in path {
      var k :| 0 <= k < |path| && path[k] == gs[last].identifier;
      assert IsRevisit(gs, t[k..]);
    } else if Parent(gs, last).Some? {
      Lengthen(gs, t);
      RankedWalkEnds(gs, rank, t + [Parent(gs, last).value]);
    }
  }

  lemma {:induction false} RankedHasNoCycle(gs: Grants, rank: seq<nat>, start: nat)
    requires Ranked(gs, rank) && !RevisitsId(gs)
    ensures FirstCycleFrom(gs, start).None?
    decreases |gs| - start
  {
    if start < |gs| {
      RankedWalkEnds(gs, rank, [start]);
      assert IdsAlong(gs, [start][..0]) == [];
      RankedHasNoCycle(gs, rank, start + 1);
    }
  }

  /**
    On every grant list, the cycle check passes exactly when the parent references can be ranked
    and no grant has a proper ancestor with its own identifier. So it is not the rank test exactly
    on the lists that can be ranked and revisit an identifier.
    */
  lemma {:induction false} CycleCheckExact(gs: Grants)
    ensures ReferenceCycleOf(gs).None? <==> Rankable(gs) && !RevisitsId(gs)
    ensures (ReferenceCycleOf(gs).None? <==> Rankable(gs)) <==> !(Rankable(gs) && RevisitsId(gs))
  {
    if ReferenceCycleOf(gs).None? {
      var rank := NoCycleRanks(gs);
      if t: seq<nat> :| IsRevisit(gs, t) {
        NoCycleFrom(gs, 0, t[0]);
        WalkMeetsOnce(gs, t, []);
      }
    }
    if Rankable(gs) && !RevisitsId(gs) {
      var rank: seq<nat> :| Ranked(gs, rank);
      RankedHasNoCycle(gs, rank, 0);
    }
  }

  lemma {:induction false} RankFallsAlong(gs: Grants, rank: seq<nat>, t: seq<nat>)
    requires Ranked(gs, rank) && Trail(gs, t)
    ensures |t| >= 2 ==> rank[t[|t| - 1]] < rank[t[0]]
  {
    if |t| >= 2 {
      assert Parent(gs, t[0]) == Some(t[1]);
      RankFallsAlong(gs, rank, t[1..]);
    }
  }

  /** With distinct identifiers, which validation has established by then, the check is the rank test. */
  lemma {:induction false} DistinctIdsRankExactly(gs: Grants)
    requires UniqueIds(gs)
    ensures ReferenceCycleOf(gs).None? <==> Rankable(gs)
  {
    CycleCheckExact(gs);
    if rank: seq<nat>, t: seq<nat> :| Ranked(gs, rank) && IsRevisit(gs, t) {
      RankFallsAlong(gs, rank, t);
    }
  }

  /**
    A list on which the check taken alone is not the rank test: two grants of one identifier, the
    second naming it as its parent, are ranked by position and still reported.
    */
  lemma {:induction false} RankedAndReported(name: Name, scope: AuthorityScope, p: Principal)
    ensures var gs := [AuthorityGrant(name, p, p, scope, None, 0, 1), AuthorityGrant(name, p, p, scope, Some(name), 0, 1)];
            Rankable(gs) && RevisitsId(gs) && ReferenceCycleOf(gs) == Some(name)
  {
    var gs := [AuthorityGrant(name, p, p, scope, None, 0, 1), AuthorityGrant(name, p, p, scope, Some(name), 0, 1)];
    assert Names(gs, name, 0);
    assert Parent(gs, 0).None? && Parent(gs, 1) == Some(0);
    assert Ranked(gs, [0, 1]) && IsRevisit(gs, [1, 0]);
    FewerUnvisited(gs, 1, []);
    assert [] + [name] == [name];
    assert Walk(gs, 0, [name]) == Some(name);
    assert Walk(gs, 0, []).None?;
    assert Walk(gs, 1, []) == Some(name);
    assert FirstCycleFrom(gs, 1) == Some(name);
  }

  // ----- Soundness and completeness of validation

  /** Principals in delegation order: the root grantor, then every grantee. */
  function Principals(gs: Grants): (r: seq<Principal>)
    requires gs != []
    ensures |r| == |gs| + 1
  {
    [gs[0].grantor] + seq(|gs|, i requires 0 <= i < |gs| => gs[i].grantee)
  }

  ghost predicate Linked(gs: Grants) {
    && (gs != [] ==> gs[0].parent.None?)
    && forall i :: 0 < i < |gs| ==> gs[i].parent == Some(gs[i - 1].identifier) && gs[i - 1].grantee == gs[i].grantor
  }

  /** A chain that is in order whatever the time and the revocations. */
  ghost predicate SoundChain(gs: Grants)
    requires gs != []
  {
    && UniqueIds(gs)
    && Linked(gs)
    && (forall i, j :: 0 <= i < j < |gs| + 1 ==> Principals(gs)[i] != Principals(gs)[j])
    && forall i :: 0 < i < |gs| ==> IsAttenuation(gs[i].scope, gs[i - 1].scope)
  }

  /** No grant is revoked, and the time lies in the half-open window of every grant. */
  ghost predicate Current(gs: Grants, state: AuthorizationState) {
    forall i :: 0 <= i < |gs| ==>
      && gs[i].identifier !in state.revocations.grantIds
      && gs[i].validFrom <= state.logicalTime < gs[i].validUntil
  }

  lemma {:induction false} DuplicateCheckExact(gs: Grants)
    ensures FirstDuplicate(gs).None? <==> UniqueIds(gs)
  {
    if FirstDuplicate(gs).None? {
      forall i, j | 0 <= i < j < |gs| ensures gs[i].identifier != gs[j].identifier {
        assert !RepeatsId(gs, j);
      }
    }
  }

  lemma {:induction false} LinkCheckExact(gs: Grants)
    requires gs != []
    ensures FirstBroken(gs).None? <==> Linked(gs)
  {
    if FirstBroken(gs).None? {
      assert !BreaksProvenance(gs, 0);
      forall i | 0 < i < |gs|
        ensures gs[i].parent == Some(gs[i - 1].identifier) && gs[i - 1].grantee == gs[i].grantor
      {
        assert !BreaksProvenance(gs, i);
      }
    }
  }

  lemma {:induction false} PrincipalCheckExact(gs: Grants)
    requires gs != []
    ensures FirstRepeatedPrincipal(gs).None?
            <==> (forall i, j :: 0 <= i < j < |gs| + 1 ==> Principals(gs)[i] != Principals(gs)[j])
  {
    var ps := Principals(gs);
    if FirstRepeatedPrincipal(gs).None? {
      forall i, j | 0 <= i < j < |gs| + 1 ensures ps[i] != ps[j] {
        assert !RepeatsPrincipal(gs, j - 1);
        assert ps[j] == gs[j - 1].grantee && (i > 0 ==> ps[i] == gs[i - 1].grantee);
      }
    } else {
      var j := FirstRepeatedPrincipal(gs).value;
      assert ps[j + 1] == gs[j].grantee && ps[0] == gs[0].grantor;
      if gs[j].grantee != gs[0].grantor {
        var i :| 0 <= i < j && gs[i].grantee == gs[j].grantee;
        assert ps[i + 1] == ps[j + 1];
      }
    }
  }

  /** A linked chain of distinct identifiers is ranked by position, so it never triggers the cycle check. */
  lemma {:induction false} LinkedNeverCycles(gs: Grants)
    requires UniqueIds(gs) && Linked(gs)
    ensures ReferenceCycleOf(gs).None?
  {
    var rank := seq(|gs|, i requires 0 <= i < |gs| => i as nat);
    forall i: nat | i < |gs| && Parent(gs, i).Some? ensures rank[Parent(gs, i).value] < rank[i] {
      var k := Parent(gs, i).value;
      assert gs[k].identifier == gs[i - 1].identifier;
    }
    assert Ranked(gs, rank);
    DistinctIdsRankExactly(gs);
  }

  lemma {:induction false} StructuralChecksExact(gs: Grants)
    requires gs != []
    ensures SoundChain(gs) <==>
      && FirstDuplicate(gs).None? && ReferenceCycleOf(gs).None? && FirstBroken(gs).None?
      && FirstRepeatedPrincipal(gs).None? && FirstBroadened(gs).None?
  {
    DuplicateCheckExact(gs);
    LinkCheckExact(gs);
    PrincipalCheckExact(gs);
    if SoundChain(gs) {
      LinkedNeverCycles(gs);
    }
    if FirstBroadened(gs).None? {
      forall i | 0 < i < |gs| ensures IsAttenuation(gs[i].scope, gs[i - 1].scope) {
        assert !Broadens(gs, i);
      }
    }
  }

  lemma {:induction false} StateChecksExact(gs: Grants, state: AuthorizationState)
    ensures Current(gs, state) <==>
      && FirstRevoked(gs, state).None? && FirstNotYetValid(gs, state).None? && FirstExpired(gs, state).None?
  {
    if FirstRevoked(gs, state).None? && FirstNotYetValid(gs, state).None? && FirstExpired(gs, state).None? {
      forall i | 0 <= i < |gs|
        ensures gs[i].identifier !in state.revocations.grantIds
        ensures gs[i].validFrom <= state.logicalTime < gs[i].validUntil
      {
        assert !IsRevoked(gs, state, i) && !NotYetValidAt(gs, state, i) && !ExpiredAt(gs, state, i);
      }
    }
  }

  /** VALID means exactly: sound, unrevoked and in every window. */
  lemma {:induction false} ValidExact(id: Identity, chain: DelegationChain, state: AuthorizationState)
    requires chain.grants != []
    ensures ValidateAuthority(id, chain, state).status == Valid
            <==> SoundChain(chain.grants) && Current(chain.grants, state)
  {
    StructuralChecksExact(chain.grants);
    StateChecksExact(chain.grants, state);
  }

  /** The grant no grant of the chain was delegated from: nobody names it as parent. */
  ghost predicate IsEffective(gs: Grants, g: AuthorityGrant) {
    g in gs && forall h :: h in gs ==> h.parent != Some(g.identifier)
  }

  /** In a linked chain of distinct identifiers that is the last grant, and no other. */
  lemma {:induction false} LastIsEffective(gs: Grants)
    requires gs != [] && UniqueIds(gs) && Linked(gs)
    ensures forall g :: IsEffective(gs, g) <==> g == gs[|gs| - 1]
  {
    var leaf := gs[|gs| - 1];
    forall h | h in gs ensures h.parent != Some(leaf.identifier) {
      var i :| 0 <= i < |gs| && gs[i] == h;
      if i > 0 {
        assert gs[i].parent == Some(gs[i - 1].identifier) && gs[i - 1].identifier != leaf.identifier;
      }
    }
    forall i | 0 <= i < |gs| - 1 ensures !IsEffective(gs, gs[i]) {
      assert gs[i + 1] in gs;
    }
  }

  /**
    A VALID result vouches for the one effective grant: its identifier, its grantee as holder, its
    scope, at the supplied time, for the supplied chain and state. Any other result vouches for
    nothing and names an offender.
    */
  lemma {:induction false} ResultVouches(id: Identity, chain: DelegationChain, state: AuthorizationState)
    requires chain.grants != []
    ensures var r := ValidateAuthority(id, chain, state);
            && r.chainDigest == id(OfChain(chain)) && r.stateDigest == id(OfState(state))
            && (r.status == Valid <==> r.verified.Some?) && (r.status == Valid <==> r.offending.None?)
            && (r.status == Valid ==>
                  exists g ::
                    && IsEffective(chain.grants, g) && (forall h :: IsEffective(chain.grants, h) ==> h == g)
                    && var v := r.verified.value;
                       && v.grantId == g.identifier && v.principal == g.grantee && v.scope == g.scope
                       && v.validatedAt == state.logicalTime
                       && v.chainDigest == id(OfChain(chain)) && v.stateDigest == id(OfState(state)))
  {
    hide FirstDuplicate, ReferenceCycleOf, FirstBroken, FirstRepeatedPrincipal, FirstBroadened, FirstRevoked;
    hide FirstNotYetValid, FirstExpired, Current, IsEffective, UniqueIds, Linked, IsAttenuation, Principals;
    ValidExact(id, chain, state);
    if SoundChain(chain.grants) {
      LastIsEffective(chain.grants);
      var leaf := chain.grants[|chain.grants| - 1];
      assert IsEffective(chain.grants, leaf);
    }
  }

  /** The grant at `i` fails the check that `status` stands for. */
  ghost predicate Fails(gs: Grants, state: AuthorizationState, status: ValidationStatus, i: nat)
    requires gs != []
  {
    match status
    case InvalidChain => RepeatsId(gs, i)
    case BrokenProvenance => BreaksProvenance(gs, i)
    case Cycle => RepeatsPrincipal(gs, i)
    case BroadenedAuthority => Broadens(gs, i)
    case Revoked => IsRevoked(gs, state, i)
    case NotYetValid => NotYetValidAt(gs, state, i)
    case ExpiredGrant => ExpiredAt(gs, state, i)
    case Valid => false
  }

  /** The documented order of the checks. */
  function CheckOrder(status: ValidationStatus): nat {
    match status
    case InvalidChain => 0
    case BrokenProvenance => 1
    case Cycle => 2
    case BroadenedAuthority => 3
    case Revoked => 4
    case NotYetValid => 5
    case ExpiredGrant => 6
    case Valid => 7
  }

  /** No grant fails an earlier check, and no earlier grant fails this one. */
  ghost predicate FailsFirst(gs: Grants, state: AuthorizationState, status: ValidationStatus, i: nat)
    requires gs != []
  {
    && i < |gs| && Fails(gs, state, status, i)
    && (forall j: nat :: j < i ==> !Fails(gs, state, status, j))
    && (forall earlier, j: nat :: CheckOrder(earlier) < CheckOrder(status) ==> !Fails(gs, state, earlier, j))
  }

  /**
    A failure is the first one. A parent-reference cycle is reported when the identifiers are
    distinct, by the first identifier met twice from the earliest grant whose walk repeats.
    Otherwise the offending grant is the earliest failing its check, and every check that comes
    before in the documented order passes at every grant.
    */
  lemma {:induction false} FailureIsFirst(gs: Grants, state: AuthorizationState)
    requires gs != [] && FirstFailure(gs, state).Some?
    ensures var (status, offender) := FirstFailure(gs, state).value;
            || (status == Cycle && UniqueIds(gs) && OnCycle(gs, offender) && RepeatsFirst(gs, offender))
            || exists i: nat :: FailsFirst(gs, state, status, i) && gs[i].identifier == offender
  {
    hide RepeatsId, BreaksProvenance, RepeatsPrincipal, Broadens, IsRevoked, NotYetValidAt, ExpiredAt, UniqueIds, OnCycle;
    hide ReferenceCycleOf, RepeatsFirst;
    DuplicateCheckExact(gs);
    var (status, offender) := FirstFailure(gs, state).value;
    if FirstDuplicate(gs).None? && ReferenceCycleOf(gs).Some? {
      ReportedCycleIsReal(gs);
      ReportIsFirst(gs);
    } else {
      var i :=
        match status
        case InvalidChain => FirstDuplicate(gs).value
        case BrokenProvenance => FirstBroken(gs).value
        case Cycle => FirstRepeatedPrincipal(gs).value
        case BroadenedAuthority => FirstBroadened(gs).value
        case Revoked => FirstRevoked(gs, state).value
        case NotYetValid => FirstNotYetValid(gs, state).value
        case _ => FirstExpired(gs, state).GetOr(0);
      assert FailsFirst(gs, state, status, i) && gs[i].identifier == offender;
    }
  }

  // ----- Prefixes and effective scope

  /** Whatever a chain may do, every delegator in it may do: its prefixes are valid too. */
  lemma {:induction false} PrefixValid(id: Identity, chain: DelegationChain, state: AuthorizationState, n: nat)
    requires 0 < n <= |chain.grants| && ValidateAuthority(id, chain, state).status == Valid
    ensures ValidateAuthority(id, DelegationChain(chain.grants[..n]), state).status == Valid
  {
    hide ValidateAuthority, IsAttenuation;
    var gs, hs := chain.grants, chain.grants[..n];
    ValidExact(id, chain, state);
    ValidExact(id, DelegationChain(hs), state);
    assert forall i :: 0 <= i < n + 1 ==> Principals(hs)[i] == Principals(gs)[i];
  }

  /** In a sound chain, the scope of every grant attenuates the scope of every earlier one. */
  lemma {:induction false} ScopesNarrow(gs: Grants, i: nat, j: nat)
    requires gs != [] && SoundChain(gs) && i <= j < |gs|
    ensures IsAttenuation(gs[j].scope, gs[i].scope)
    decreases j - i
  {
    if i == j {
      AttenuationReflexive(gs[i].scope);
    } else {
      ScopesNarrow(gs, i, j - 1);
      AttenuationTransitive(gs[j].scope, gs[j - 1].scope, gs[i].scope);
    }
  }

  /** A request inside the verified scope is inside the scope of every grant, root to leaf. */
  lemma {:induction false} RequestInsideEveryScope(
    id: Identity, chain: DelegationChain, state: AuthorizationState, request: AuthorizationRequest, i: nat)
    requires i < |chain.grants| && ValidateAuthority(id, chain, state).status == Valid
    requires ScopeStatus(request, ValidateAuthority(id, chain, state).verified.value.scope) == Applicable
    ensures Contains(chain.grants[i].scope, request)
  {
    hide IsAttenuation, ScopeStatus, Contains;
    var leaf := |chain.grants| - 1;
    ValidExact(id, chain, state);
    ScopesNarrow(chain.grants, i, leaf);
    ApplicableIffContains(request, chain.grants[leaf].scope);
    AttenuationNarrows(chain.grants[leaf].scope, chain.grants[i].scope, request);
  }
}
