/**
 RuntimeSettlement.ts with RuntimeStrandLaneBinding.ts: plans, and settlements that recapture,
 compare and promote inside one turn of the Runtime's mutation gate.

 The system is a transition system whose steps are the code between two awaits. Lane writes,
 strand writes and forks are gated mutations that may change the world in any way they like;
 previews and strand openings are not gated.
 */
module RuntimeSettlement {
  import opened Wrappers
  import G = MutationGate

  /** A frontier or digest, compared by equality only. */
  type Ref = string

  datatype Status = EmptyDraft | FailedDraft | ReadyDraft | SettledDraft | SettlingDraft

  /** A strand as one of its Lanes sees it, a new one for each opening; `target` is its parent worldline. */
  datatype Handle = Handle(target: nat, base: Ref, source: Ref, proposal: Ref, status: Status)

  datatype World = World(frontiers: seq<Ref>, handles: seq<Handle>)

  /** A plan with the snapshot its preview captured. */
  datatype Plan = Plan(
    handle: nat, target: nat, base: Ref, source: Ref, proposal: Ref, status: Status, targetFrontier: Ref, law: Ref,
    policy: Ref)

  datatype Outcome = Derived | SourceNotReady(status: Status) | CommonBasisRequired

  /** `previewOutcome` */
  function PreviewOutcome(status: Status, base: Ref, targetFrontier: Ref): Outcome {
    if status != ReadyDraft then SourceNotReady(status)
    else if base != targetFrontier then CommonBasisRequired
    else Derived
  }

  function PlannedOutcome(p: Plan): Outcome {
    PreviewOutcome(p.status, p.base, p.targetFrontier)
  }

  datatype Kind = Mutation | Settlement(plan: nat)

  datatype Result = Stale | Obstruction | Accepted | PromotionRefused | Threw | Completed

  /** How far a job is inside its turn; what a settlement has read so far. */
  datatype Stage =
    | Fresh
    | SourceRead(source: Ref)
    | TargetRead(source: Ref, target: Ref)
    | ProposalRead(source: Ref, target: Ref, proposal: Ref)
    | Recaptured(source: Ref, target: Ref, proposal: Ref, status: Status, law: Ref, policy: Ref)
    | Promoting
    | Ended(result: Result)

  datatype Job = Job(kind: Kind, stage: Stage)

  /** `accepted` records the plans accepted so far, in order. */
  datatype System = System(world: World, gate: G.Gate, jobs: seq<Job>, plans: seq<Plan>, accepted: seq<nat>)

  datatype Event =
    | Issue(kind: Kind)
    | Begin(job: nat)
    | Mutate(job: nat, world: World)
    | ReadSource(job: nat)
    | ReadTarget(job: nat)
    | ReadProposal(job: nat)
    | ReadRest(job: nat, law: Ref, policy: Ref)
    | Compare(job: nat)
    | PromoteReturns(job: nat, accepted: bool)
    | Complete(job: nat)
    | Throw(job: nat)
    | Leave(job: nat)
    | OpenHandle(handle: Handle)
    | Preview(plan: Plan)

  // -------------------------------------------------------------------- steps

  /** The plan names a strand and its parent; the strand's base is fixed at its fork. */
  predicate BoundTo(p: Plan, w: World) {
    && p.handle < |w.handles| && w.handles[p.handle].target == p.target && p.target < |w.frontiers|
    && w.handles[p.handle].base == p.base
  }

  /**
   What no mutation does: move a strand to another parent or another base, remove one, or
   take back that a draft has joined.
   */
  predicate Legal(before: World, after: World) {
    && |before.frontiers| <= |after.frontiers| && |before.handles| <= |after.handles|
    && forall h | 0 <= h < |before.handles| ::
         && after.handles[h].target == before.handles[h].target && after.handles[h].base == before.handles[h].base
         && (before.handles[h].status == SettledDraft ==> after.handles[h].status == SettledDraft)
  }

  predicate Active(s: System, k: nat) {
    k < |s.jobs| && k < |s.gate.calls| && s.gate.calls[k].phase == G.Active
  }

  predicate Settling(s: System, k: nat) {
    Active(s, k) && s.jobs[k].kind.Settlement? && s.jobs[k].kind.plan < |s.plans|
    && BoundTo(s.plans[s.jobs[k].kind.plan], s.world)
  }

  function PlanOf(s: System, k: nat): Plan
    requires k < |s.jobs| && s.jobs[k].kind.Settlement? && s.jobs[k].kind.plan < |s.plans|
  {
    s.plans[s.jobs[k].kind.plan]
  }

  /** `settlementBasisMatches` */
  predicate BasisMatches(p: Plan, r: Stage)
    requires r.Recaptured?
  {
    && r.source == p.source && r.proposal == p.proposal && r.status == p.status && r.target == p.targetFrontier
    && r.law == p.law && r.policy == p.policy
  }

  predicate Enabled(s: System, e: Event) {
    match e
    case Issue(kind) => kind.Settlement? ==> kind.plan < |s.plans|
    case Begin(k) => k < |s.jobs| && G.Enabled(s.gate, G.Start(k))
    case Mutate(k, w) =>
      && Active(s, k) && Legal(s.world, w)
      && ((s.jobs[k].kind.Mutation? && s.jobs[k].stage == Fresh) || (Settling(s, k) && s.jobs[k].stage == Promoting))
    case ReadSource(k) => Settling(s, k) && s.jobs[k].stage == Fresh
    case ReadTarget(k) => Settling(s, k) && s.jobs[k].stage.SourceRead?
    case ReadProposal(k) => Settling(s, k) && s.jobs[k].stage.TargetRead?
    case ReadRest(k, _, _) => Settling(s, k) && s.jobs[k].stage.ProposalRead?
    case Compare(k) => Settling(s, k) && s.jobs[k].stage.Recaptured?
    case PromoteReturns(k, accepted) =>
      && Settling(s, k) && s.jobs[k].stage == Promoting
      // A join that is accepted has marked its draft first.
      && (accepted ==> s.world.handles[PlanOf(s, k).handle].status == SettledDraft)
    case Complete(k) => Active(s, k) && s.jobs[k].kind.Mutation? && s.jobs[k].stage == Fresh
    case Throw(k) => Active(s, k) && !s.jobs[k].stage.Ended?
    case Leave(k) => Active(s, k) && s.jobs[k].stage.Ended?
    case OpenHandle(h) => h.target < |s.world.frontiers|
    case Preview(p) => BoundTo(p, s.world)
  }

  function WithStage(s: System, k: nat, stage: Stage): System
    requires k < |s.jobs|
  {
    s.(jobs := s.jobs[k := s.jobs[k].(stage := stage)])
  }

  /** `executeSettlement` after the recapture: stale, the plan's own obstruction, or promote. */
  function AfterCompare(p: Plan, r: Stage): (after: Stage)
    requires r.Recaptured?
    ensures after == Promoting || after.Ended?
  {
    if !BasisMatches(p, r) then Ended(Stale)
    else if PlannedOutcome(p) != Derived then Ended(Obstruction)
    else Promoting
  }

  function Step(s: System, e: Event): System
    requires Enabled(s, e)
  {
    match e
    case Issue(kind) => s.(gate := G.Step(s.gate, G.Enter), jobs := s.jobs + [Job(kind, Fresh)])
    case Begin(k) => s.(gate := G.Step(s.gate, G.Start(k)))
    case Mutate(k, w) => s.(world := w)
    case ReadSource(k) => WithStage(s, k, SourceRead(s.world.handles[PlanOf(s, k).handle].source))
    case ReadTarget(k) => WithStage(s, k, TargetRead(s.jobs[k].stage.source, s.world.frontiers[PlanOf(s, k).target]))
    case ReadProposal(k) =>
      var r := s.jobs[k].stage;
      WithStage(s, k, ProposalRead(r.source, r.target, s.world.handles[PlanOf(s, k).handle].proposal))
    case ReadRest(k, law, policy) =>
      var r := s.jobs[k].stage;
      WithStage(s, k, Recaptured(r.source, r.target, r.proposal, s.world.handles[PlanOf(s, k).handle].status, law, policy))
    case Compare(k) => WithStage(s, k, AfterCompare(PlanOf(s, k), s.jobs[k].stage))
    case PromoteReturns(k, accepted) =>
      var after := WithStage(s, k, Ended(if accepted then Accepted else PromotionRefused));
      if accepted then after.(accepted := s.accepted + [s.jobs[k].kind.plan]) else after
    case Complete(k) => WithStage(s, k, Ended(Completed))
    case Throw(k) => WithStage(s, k, Ended(Threw))
    case Leave(k) => s.(gate := G.Step(s.gate, G.Finish(k, s.jobs[k].stage.result == Threw)))
    case OpenHandle(h) => s.(world := s.world.(handles := s.world.handles + [h]))
    case Preview(p) => s.(plans := s.plans + [p])
  }

  // ------------------------------------------------------------------- safety

  /** What a settlement has read is still so. */
  ghost predicate StillSo(w: World, p: Plan, stage: Stage)
    requires BoundTo(p, w)
  {
    var h := w.handles[p.handle];
    match stage
    case SourceRead(source) => source == h.source
    case TargetRead(source, target) => source == h.source && target == w.frontiers[p.target]
    case ProposalRead(source, target, proposal) =>
      source == h.source && target == w.frontiers[p.target] && proposal == h.proposal
    case Recaptured(source, target, proposal, status, _, _) =>
      source == h.source && target == w.frontiers[p.target] && proposal == h.proposal && status == h.status
    case _ => true
  }

  predicate Inside(stage: Stage) {
    !stage.Fresh? && !stage.Ended?
  }

  /** One job fits the phase of its call, and what it has read is still so. */
  ghost predicate JobSafe(job: Job, phase: G.Phase, plans: seq<Plan>, w: World) {
    && (job.kind.Settlement? ==>
          && job.kind.plan < |plans| && BoundTo(plans[job.kind.plan], w)
          && StillSo(w, plans[job.kind.plan], job.stage))
    && (Inside(job.stage) ==> phase == G.Active)
    && (phase == G.Waiting ==> job.stage == Fresh)
    && (phase.Done? ==> job.stage.Ended? && (phase.threw <==> job.stage.result == Threw))
  }

  ghost predicate Safe(s: System) {
    && G.Reachable(s.gate) && |s.jobs| == |s.gate.calls|
    && (forall p | p in s.plans :: BoundTo(p, s.world))
    && forall k: nat | k < |s.jobs| :: JobSafe(s.jobs[k], s.gate.calls[k].phase, s.plans, s.world)
  }

  lemma OneActive(s: System, j: nat, k: nat)
    requires Safe(s) && Active(s, j) && Active(s, k)
    ensures j == k
  {
    hide JobSafe, BoundTo;
    if j < k {
      G.AtMostOneActive(s.gate, j, k);
    } else if k < j {
      G.AtMostOneActive(s.gate, k, j);
    }
  }

  lemma BoundStays(p: Plan, before: World, after: World)
    requires BoundTo(p, before) && Legal(before, after)
    ensures BoundTo(p, after)
  {
  }

  /** Mutations run in their own turn, so no other job is inside a settlement meanwhile. */
  lemma MutateKeeps(s: System, k: nat, w: World)
    requires Safe(s) && Enabled(s, Mutate(k, w))
    ensures Safe(Step(s, Mutate(k, w)))
  {
    hide G.Reachable, BoundTo, Legal;
    forall p | p in s.plans
      ensures BoundTo(p, w)
    {
      BoundStays(p, s.world, w);
    }
    forall j: nat | j < |s.jobs|
      ensures JobSafe(s.jobs[j], s.gate.calls[j].phase, s.plans, w)
    {
      assert JobSafe(s.jobs[j], s.gate.calls[j].phase, s.plans, s.world);
      if Inside(s.jobs[j].stage) {
        OneActive(s, j, k);
      }
    }
  }

  /** A strand opened on the side disturbs nothing that was read. */
  lemma OpenKeeps(s: System, h: Handle)
    requires Safe(s) && Enabled(s, OpenHandle(h))
    ensures Safe(Step(s, OpenHandle(h)))
  {
    hide G.Reachable;
    var w := s.world.(handles := s.world.handles + [h]);
    forall j: nat | j < |s.jobs|
      ensures JobSafe(s.jobs[j], s.gate.calls[j].phase, s.plans, w)
    {
      assert JobSafe(s.jobs[j], s.gate.calls[j].phase, s.plans, s.world);
    }
  }

  lemma PreviewKeeps(s: System, p: Plan)
    requires Safe(s) && Enabled(s, Preview(p))
    ensures Safe(Step(s, Preview(p)))
  {
    hide G.Reachable, BoundTo, StillSo;
    forall j: nat | j < |s.jobs|
      ensures JobSafe(s.jobs[j], s.gate.calls[j].phase, s.plans + [p], s.world)
    {
      assert JobSafe(s.jobs[j], s.gate.calls[j].phase, s.plans, s.world);
    }
  }

  predicate IsGateStep(e: Event) {
    e.Issue? || e.Begin? || e.Leave?
  }

  lemma GateStepKeeps(s: System, e: Event)
    requires Safe(s) && Enabled(s, e) && IsGateStep(e)
    ensures Safe(Step(s, e))
  {
    hide G.Reachable, BoundTo, StillSo, G.MutexStep, G.MutexOf;
    var step := if e.Issue? then G.Enter else if e.Begin? then G.Start(e.job)
                else G.Finish(e.job, s.jobs[e.job].stage.result == Threw);
    G.RefinesMutex(s.gate, step);
    var after := Step(s, e);
    forall j: nat | j < |after.jobs|
      ensures JobSafe(after.jobs[j], after.gate.calls[j].phase, s.plans, s.world)
    {
      if j < |s.jobs| {
        assert JobSafe(s.jobs[j], s.gate.calls[j].phase, s.plans, s.world);
      } else {
        NewJobSafe(s, e.kind);
      }
    }
  }

  lemma NewJobSafe(s: System, kind: Kind)
    requires Safe(s) && (kind.Settlement? ==> kind.plan < |s.plans|)
    ensures JobSafe(Job(kind, Fresh), G.Waiting, s.plans, s.world)
  {
    hide G.Reachable, BoundTo;
    if kind.Settlement? {
      assert s.plans[kind.plan] in s.plans;
    }
  }

  predicate IsJobStep(e: Event) {
    !IsGateStep(e) && !e.Mutate? && !e.OpenHandle? && !e.Preview?
  }

  lemma JobStepKeeps(s: System, e: Event)
    requires Safe(s) && Enabled(s, e) && IsJobStep(e)
    ensures Safe(Step(s, e))
  {
    hide G.Reachable, BoundTo, AfterCompare;
    var after := Step(s, e);
    forall j: nat | j < |s.jobs|
      ensures JobSafe(after.jobs[j], s.gate.calls[j].phase, s.plans, s.world)
    {
      assert JobSafe(s.jobs[j], s.gate.calls[j].phase, s.plans, s.world);
    }
  }

  lemma StepKeeps(s: System, e: Event)
    requires Safe(s) && Enabled(s, e)
    ensures Safe(Step(s, e))
  {
    hide Safe, Enabled, Step;
    if IsGateStep(e) {
      GateStepKeeps(s, e);
    } else if e.Mutate? {
      MutateKeeps(s, e.job, e.world);
    } else if e.OpenHandle? {
      OpenKeeps(s, e.handle);
    } else if e.Preview? {
      PreviewKeeps(s, e.plan);
    } else {
      JobStepKeeps(s, e);
    }
  }

  /**
   Promotion is called exactly when the strand's source frontier, proposal and status, the
   target's frontier, and the law and policy digests equal the plan's at that very moment, the
   draft is ready, and the strand's base is the target's frontier. If they are equal and that
   is not so, the settlement ends in the plan's obstruction: the status of a draft that is not
   ready, or the missing common basis. If they are not equal, it is stale.
   */
  lemma PromotesExactlyOnTheBasis(s: System, k: nat)
    requires Safe(s) && Enabled(s, Compare(k))
    ensures var p, r, after := PlanOf(s, k), s.jobs[k].stage, Step(s, Compare(k)).jobs[k].stage;
            var h, frontier := s.world.handles[p.handle], s.world.frontiers[p.target];
            var matches := && h.source == p.source && h.proposal == p.proposal && h.status == p.status
                           && frontier == p.targetFrontier && r.law == p.law && r.policy == p.policy;
            && (after == Promoting <==> matches && h.status == ReadyDraft && h.base == frontier)
            && (after == Ended(Obstruction) <==> matches && !(h.status == ReadyDraft && h.base == frontier))
            && (after == Ended(Stale) <==> !matches)
            && (matches ==> (PlannedOutcome(p).SourceNotReady? <==> h.status != ReadyDraft))
            && (matches && h.status != ReadyDraft ==> PlannedOutcome(p).status == h.status)
            && (matches ==> (PlannedOutcome(p).CommonBasisRequired? <==> h.status == ReadyDraft && h.base != frontier))
  {
    assert JobSafe(s.jobs[k], s.gate.calls[k].phase, s.plans, s.world);
  }

  /** Between a settlement's first read and its comparison no gated mutation can happen. */
  lemma NoMutationDuringRecapture(s: System, k: nat, j: nat, w: World)
    requires Safe(s) && k < |s.jobs| && Inside(s.jobs[k].stage) && s.jobs[k].stage != Promoting
    ensures !Enabled(s, Mutate(j, w))
  {
    hide G.Reachable;
    assert JobSafe(s.jobs[k], s.gate.calls[k].phase, s.plans, s.world);
    if Enabled(s, Mutate(j, w)) {
      OneActive(s, j, k);
    }
  }

  /**
   The comparison does not look at the base. With a matching basis a fresh preview has the
   planned outcome exactly if the draft was not ready anyway or the base agrees with the
   target's frontier as it did for the plan, which a base fixed at the fork always does.
   */
  lemma MatchingBasisSameOutcome(p: Plan, w: World, r: Stage)
    requires p.handle < |w.handles| && p.target < |w.frontiers| && r.Recaptured? && BasisMatches(p, r)
    requires r.status == w.handles[p.handle].status && r.target == w.frontiers[p.target]
    ensures var h := w.handles[p.handle];
            PreviewOutcome(h.status, h.base, w.frontiers[p.target]) == PlannedOutcome(p)
            <==> p.status != ReadyDraft || (h.base == r.target <==> p.base == r.target)
    ensures BoundTo(p, w) ==>
              PreviewOutcome(w.handles[p.handle].status, w.handles[p.handle].base, w.frontiers[p.target])
              == PlannedOutcome(p)
  {
  }

  // --------------------------------------------------------------- acceptance

  /** No two accepted plans have the same draft, and every such draft has joined. */
  ghost predicate JoinedOnce(s: System) {
    && (forall i | 0 <= i < |s.accepted| ::
          && s.accepted[i] < |s.plans| && s.plans[s.accepted[i]].handle < |s.world.handles|
          && s.world.handles[s.plans[s.accepted[i]].handle].status == SettledDraft)
    && (forall i, j | 0 <= i < j < |s.accepted| ::
          s.plans[s.accepted[i]].handle != s.plans[s.accepted[j]].handle)
    && forall i, k: nat | 0 <= i < |s.accepted| && k < |s.jobs| && s.jobs[k].stage == Promoting
                          && s.jobs[k].kind.Settlement? && s.jobs[k].kind.plan < |s.plans| ::
         s.plans[s.accepted[i]].handle != s.plans[s.jobs[k].kind.plan].handle
  }

  lemma CompareJoins(s: System, k: nat)
    requires Safe(s) && JoinedOnce(s) && Enabled(s, Compare(k))
    ensures JoinedOnce(Step(s, Compare(k)))
  {
    PromotesExactlyOnTheBasis(s, k);
    hide Safe, AfterCompare, BasisMatches;
  }

  lemma PromoteJoins(s: System, k: nat, accepted: bool)
    requires Safe(s) && JoinedOnce(s) && Enabled(s, PromoteReturns(k, accepted))
    ensures JoinedOnce(Step(s, PromoteReturns(k, accepted)))
  {
    OnlyPromoting(s, k);
    hide Safe;
  }

  lemma OnlyPromoting(s: System, k: nat)
    requires Safe(s) && Active(s, k)
    ensures forall j: nat | j < |s.jobs| && s.jobs[j].stage == Promoting :: j == k
  {
    hide G.Reachable;
    forall j: nat | j < |s.jobs| && s.jobs[j].stage == Promoting
      ensures j == k
    {
      assert JobSafe(s.jobs[j], s.gate.calls[j].phase, s.plans, s.world);
      OneActive(s, j, k);
    }
  }

  lemma OtherJoins(s: System, e: Event)
    requires Safe(s) && JoinedOnce(s) && Enabled(s, e) && !e.Compare? && !e.PromoteReturns?
    ensures JoinedOnce(Step(s, e))
  {
    hide G.Reachable, BoundTo, StillSo;
    assert forall k: nat | k < |s.jobs| :: JobSafe(s.jobs[k], s.gate.calls[k].phase, s.plans, s.world);
  }

  /** Each draft, so each plan, is accepted at most once, whatever mutations do to frontiers. */
  lemma JoinedOnceKept(s: System, e: Event)
    requires Safe(s) && JoinedOnce(s) && Enabled(s, e)
    ensures JoinedOnce(Step(s, e))
  {
    hide Safe, Enabled, JoinedOnce, Step;
    if e.Compare? {
      CompareJoins(s, e.job);
    } else if e.PromoteReturns? {
      PromoteJoins(s, e.job, e.accepted);
    } else {
      OtherJoins(s, e);
    }
  }

  /** Exactly the accepted plans have a settlement that ended as accepted; what else ended tells its own way. */
  ghost predicate EndedAsRecorded(s: System) {
    && (forall k: nat | k < |s.jobs| && s.jobs[k].stage == Ended(Accepted) ::
          s.jobs[k].kind.Settlement? && s.jobs[k].kind.plan in s.accepted)
    && (forall a | a in s.accepted :: AcceptedBySomeJob(s, a))
    && forall k: nat | k < |s.jobs| && s.jobs[k].stage.Ended? ::
         if s.jobs[k].kind.Mutation? then s.jobs[k].stage.result in [Completed, Threw]
         else s.jobs[k].stage.result in [Stale, Obstruction, Accepted, PromotionRefused, Threw]
  }

  predicate AcceptedBySomeJob(s: System, a: nat) {
    exists k: nat :: k < |s.jobs| && s.jobs[k] == Job(Settlement(a), Ended(Accepted))
  }

  /** An accepted settlement stays so, whatever happens. */
  lemma AcceptedStays(s: System, e: Event, a: nat)
    requires Enabled(s, e) && AcceptedBySomeJob(s, a)
    ensures AcceptedBySomeJob(Step(s, e), a)
  {
    hide BoundTo, Legal, AfterCompare;
    var k: nat :| k < |s.jobs| && s.jobs[k] == Job(Settlement(a), Ended(Accepted));
    assert Step(s, e).jobs[k] == s.jobs[k];
  }

  lemma RecordKept(s: System, e: Event)
    requires EndedAsRecorded(s) && Enabled(s, e)
    ensures EndedAsRecorded(Step(s, e))
  {
    hide BoundTo, Legal, BasisMatches, AcceptedBySomeJob;
    var after := Step(s, e);
    forall a | a in s.accepted
      ensures AcceptedBySomeJob(after, a)
    {
      AcceptedStays(s, e, a);
    }
    if e.PromoteReturns? && e.accepted {
      JustAccepted(s, e.job);
    }
  }

  lemma JustAccepted(s: System, k: nat)
    requires Enabled(s, PromoteReturns(k, true))
    ensures AcceptedBySomeJob(Step(s, PromoteReturns(k, true)), s.jobs[k].kind.plan)
    ensures Step(s, PromoteReturns(k, true)).accepted == s.accepted + [s.jobs[k].kind.plan]
  {
    var after := Step(s, PromoteReturns(k, true));
    assert after.jobs[k] == Job(Settlement(s.jobs[k].kind.plan), Ended(Accepted));
  }

  function BasisOf(p: Plan): (nat, Ref) {
    (p.target, p.targetFrontier)
  }

  /**
   The step brings a target to the frontier that the plan accepted as number `i` was made
   against, or accepts that plan without having moved its target.
   */
  predicate Restores(s: System, e: Event, i: nat) {
    match e
    case Mutate(_, w) =>
      && i < |s.accepted| && s.accepted[i] < |s.plans|
      && var p := s.plans[s.accepted[i]];
         p.target < |w.frontiers| && w.frontiers[p.target] == p.targetFrontier
    case PromoteReturns(k, accepted) =>
      accepted && i == |s.accepted| && Settling(s, k) && StandsOn(s.world, PlanOf(s, k))
    case _ => false
  }

  /** The plan's target stands at the frontier the plan was made against. */
  predicate StandsOn(w: World, p: Plan) {
    p.target < |w.frontiers| && w.frontiers[p.target] == p.targetFrontier
  }

  /** The basis of the plan accepted as number `i` is gone, and no later or running promotion has it. */
  ghost predicate Spent(s: System, i: nat) {
    i < |s.accepted| ==>
      && s.accepted[i] < |s.plans| && !StandsOn(s.world, s.plans[s.accepted[i]])
      && (forall j | i < j < |s.accepted| ::
            s.accepted[j] < |s.plans| && BasisOf(s.plans[s.accepted[j]]) != BasisOf(s.plans[s.accepted[i]]))
      && forall k: nat | k < |s.jobs| && s.jobs[k].stage == Promoting && s.jobs[k].kind.Settlement?
                         && s.jobs[k].kind.plan < |s.plans| ::
           BasisOf(PlanOf(s, k)) != BasisOf(s.plans[s.accepted[i]])
  }

  lemma MutateSpends(s: System, k: nat, w: World, i: nat)
    requires Safe(s) && Spent(s, i) && Enabled(s, Mutate(k, w)) && !Restores(s, Mutate(k, w), i)
    ensures Spent(Step(s, Mutate(k, w)), i)
  {
    hide Safe, BoundTo;
  }

  lemma CompareSpends(s: System, k: nat, i: nat)
    requires Safe(s) && Spent(s, i) && Enabled(s, Compare(k))
    ensures Spent(Step(s, Compare(k)), i)
  {
    if Step(s, Compare(k)).jobs[k].stage == Promoting {
      PromotesExactlyOnTheBasis(s, k);
    }
    hide Safe, AfterCompare, BasisMatches;
  }

  lemma PromoteSpends(s: System, k: nat, accepted: bool, i: nat)
    requires Safe(s) && Spent(s, i) && Enabled(s, PromoteReturns(k, accepted))
    requires !Restores(s, PromoteReturns(k, accepted), i)
    ensures Spent(Step(s, PromoteReturns(k, accepted)), i)
  {
    OnlyPromoting(s, k);
    hide Safe;
  }

  lemma OtherSpends(s: System, e: Event, i: nat)
    requires Safe(s) && Spent(s, i) && Enabled(s, e) && !e.Mutate? && !e.Compare? && !e.PromoteReturns?
    ensures Spent(Step(s, e), i)
  {
    hide G.Reachable, BoundTo, StillSo;
    assert forall k: nat | k < |s.jobs| :: JobSafe(s.jobs[k], s.gate.calls[k].phase, s.plans, s.world);
  }

  /** As long as nothing restores the basis of an accepted plan, it stays spent. */
  lemma SpentKept(s: System, e: Event, i: nat)
    requires Safe(s) && Spent(s, i) && Enabled(s, e) && !Restores(s, e, i)
    ensures Spent(Step(s, e), i)
  {
    hide Safe, Enabled, Spent, Restores, Step;
    if e.Mutate? {
      MutateSpends(s, e.job, e.world, i);
    } else if e.Compare? {
      CompareSpends(s, e.job, i);
    } else if e.PromoteReturns? {
      PromoteSpends(s, e.job, e.accepted, i);
    } else {
      OtherSpends(s, e, i);
    }
  }

  /** Every other plan made on a spent basis is stale. */
  lemma LaterPlansAreStale(s: System, k: nat, i: nat)
    requires Safe(s) && Spent(s, i) && Enabled(s, Compare(k))
    requires i < |s.accepted| && s.accepted[i] < |s.plans|
    requires BasisOf(s.plans[s.accepted[i]]) == BasisOf(PlanOf(s, k))
    ensures Step(s, Compare(k)).jobs[k].stage == Ended(Stale)
  {
    assert JobSafe(s.jobs[k], s.gate.calls[k].phase, s.plans, s.world);
  }

  // --------------------------------------------------------------------- runs

  function Opened(w: World): System {
    System(w, G.NEW_GATE, [], [], [])
  }

  function After(s: System, events: seq<Event>): Option<System> {
    if events == [] then Some(s)
    else
      var front := After(s, events[..|events| - 1]);
      if front.Some? && Enabled(front.value, events[|events| - 1]) then
        Some(Step(front.value, events[|events| - 1]))
      else None
  }

  /** What a run had come to before its step `m`. */
  function Before(s: System, events: seq<Event>, m: nat): Option<System>
    requires m <= |events|
  {
    After(s, events[..m])
  }

  ghost predicate RestoredAt(s: System, events: seq<Event>, m: nat, i: nat)
    requires m < |events|
  {
    Before(s, events, m).Some? && Restores(Before(s, events, m).value, events[m], i)
  }

  /** No step of a run restores the basis of the plan accepted as number `i`. */
  ghost predicate NeverRestored(s: System, events: seq<Event>, i: nat) {
    forall m: nat | m < |events| :: !RestoredAt(s, events, m, i)
  }

  lemma OpenedIsSafe(w: World)
    ensures Safe(Opened(w)) && JoinedOnce(Opened(w)) && EndedAsRecorded(Opened(w)) && forall i :: Spent(Opened(w), i)
    ensures Opened(w).accepted == []
  {
    G.NewGateIsReachable();
  }

  /** In every interleaving of writes, forks, previews and settlements through one Runtime. */
  lemma {:induction false} EveryRunIsSafe(w: World, events: seq<Event>)
    requires After(Opened(w), events).Some?
    ensures Safe(After(Opened(w), events).value) && JoinedOnce(After(Opened(w), events).value)
    ensures EndedAsRecorded(After(Opened(w), events).value)
    ensures forall i | NeverRestored(Opened(w), events, i) :: Spent(After(Opened(w), events).value, i)
  {
    hide Safe, JoinedOnce, EndedAsRecorded, Spent, Enabled, Step, Restores, Opened;
    if events == [] {
      OpenedIsSafe(w);
    } else {
      var front, e := events[..|events| - 1], events[|events| - 1];
      EveryRunIsSafe(w, front);
      var s := After(Opened(w), front).value;
      StepKeeps(s, e);
      JoinedOnceKept(s, e);
      RecordKept(s, e);
      forall i | NeverRestored(Opened(w), events, i)
        ensures Spent(Step(s, e), i)
      {
        NeverRestoredBefore(Opened(w), events, |front|, i);
        assert !RestoredAt(Opened(w), events, |front|, i);
        SpentKept(s, e, i);
      }
    }
  }

  lemma NeverRestoredBefore(s: System, events: seq<Event>, n: nat, i: nat)
    requires n <= |events| && NeverRestored(s, events, i)
    ensures NeverRestored(s, events[..n], i)
  {
    forall m: nat | m < n
      ensures !RestoredAt(s, events[..n], m, i)
    {
      assert events[..n][..m] == events[..m];
      assert !RestoredAt(s, events, m, i);
    }
  }

  /** A run can be stopped anywhere, and plans and acceptances are only ever added. */
  lemma {:induction false} RunsOnlyAdd(s: System, events: seq<Event>, m: nat)
    requires After(s, events).Some? && m <= |events|
    ensures Before(s, events, m).Some?
    ensures Before(s, events, m).value.plans <= After(s, events).value.plans
    ensures Before(s, events, m).value.accepted <= After(s, events).value.accepted
  {
    hide Enabled;
    if m == |events| {
      assert events[..m] == events;
    } else {
      RunsOnlyAdd(s, events[..|events| - 1], m);
      assert events[..|events| - 1][..m] == events[..m];
    }
  }

  /**
   The target of an accepted plan keeps away from the frontier of that plan all along a run
   exactly if no step of the run restores it. The content is that it keeps away while nothing
   restores it; that a restoring step ends this is what restoring means.
   */
  lemma SpentExactlyWhileNeverRestored(w: World, events: seq<Event>, i: nat)
    requires After(Opened(w), events).Some?
    ensures NeverRestored(Opened(w), events, i)
       <==> forall m: nat | m <= |events| && Before(Opened(w), events, m).Some?
                            && i < |Before(Opened(w), events, m).value.accepted| ::
              KeepsAway(Before(Opened(w), events, m).value, i)
  {
    hide Safe, JoinedOnce, Opened, After, Enabled;
    if NeverRestored(Opened(w), events, i) {
      forall m: nat | m <= |events| && Before(Opened(w), events, m).Some?
                      && i < |Before(Opened(w), events, m).value.accepted|
        ensures KeepsAway(Before(Opened(w), events, m).value, i)
      {
        NeverRestoredBefore(Opened(w), events, m, i);
        EveryRunIsSafe(w, events[..m]);
      }
    } else {
      var m: nat :| m < |events| && RestoredAt(Opened(w), events, m, i);
      RunsOnlyAdd(Opened(w), events, m + 1);
      RestoredIsCurrent(w, events, m, i);
    }
  }

  /** The plan accepted as number `i` was made against another frontier than the present one. */
  predicate KeepsAway(s: System, i: nat)
    requires i < |s.accepted|
  {
    s.accepted[i] < |s.plans| && !StandsOn(s.world, s.plans[s.accepted[i]])
  }

  lemma RestoredIsCurrent(w: World, events: seq<Event>, m: nat, i: nat)
    requires m < |events| && RestoredAt(Opened(w), events, m, i)
    requires Before(Opened(w), events, m + 1).Some?
    ensures i < |Before(Opened(w), events, m + 1).value.accepted|
    ensures !KeepsAway(Before(Opened(w), events, m + 1).value, i)
  {
    hide Opened;
    assert events[..m + 1][..m] == events[..m];
    assert After(Opened(w), events[..m + 1]) == Some(Step(Before(Opened(w), events, m).value, events[m]));
  }

  lemma AcceptedArePlans(s: System)
    requires JoinedOnce(s)
    ensures forall i | 0 <= i < |s.accepted| :: s.accepted[i] < |s.plans|
  {
  }

  /** Two plans on one basis are accepted only with a step between that restores the basis. */
  lemma {:induction false} TwoOnOneBasisNeedARestore(w: World, events: seq<Event>, i: nat, j: nat)
    requires After(Opened(w), events).Some?
    requires i < j < |After(Opened(w), events).value.accepted|
    requires var s := After(Opened(w), events).value;
             && s.accepted[i] < |s.plans| && s.accepted[j] < |s.plans|
             && BasisOf(s.plans[s.accepted[i]]) == BasisOf(s.plans[s.accepted[j]])
    ensures exists m: nat :: && m < |events| && RestoredAt(Opened(w), events, m, i)
                             && |Before(Opened(w), events, m).value.accepted| <= j
    decreases |events|
  {
    hide Safe, JoinedOnce, Opened, Restores, BasisOf, Enabled, Step;
    OpenedIsSafe(w);
    var front := events[..|events| - 1];
    RunsOnlyAdd(Opened(w), events, |front|);
    EveryRunIsSafe(w, front);
    var before, s := After(Opened(w), front).value, After(Opened(w), events).value;
    AcceptedArePlans(before);
    if j < |before.accepted| {
      assert before.accepted[i] == s.accepted[i] && before.accepted[j] == s.accepted[j];
      TwoOnOneBasisNeedARestore(w, front, i, j);
      var m: nat :| m < |front| && RestoredAt(Opened(w), front, m, i)
                    && |Before(Opened(w), front, m).value.accepted| <= j;
      assert front[..m] == events[..m];
      assert RestoredAt(Opened(w), events, m, i);
    } else {
      EveryRunIsSafe(w, events);
      assert !Spent(s, i);
      var m: nat :| m < |events| && RestoredAt(Opened(w), events, m, i);
      assert front[..m] == events[..m];
      RunsOnlyAdd(Opened(w), front, m);
    }
  }

  /** Over any run, a plan is accepted at most once, and a draft too. */
  lemma AcceptedAtMostOnce(w: World, events: seq<Event>, i: nat, j: nat)
    requires After(Opened(w), events).Some?
    requires i < j < |After(Opened(w), events).value.accepted|
    ensures var s := After(Opened(w), events).value;
            && s.accepted[i] != s.accepted[j]
            && s.accepted[j] < |s.plans| && s.accepted[i] < |s.plans|
            && s.plans[s.accepted[i]].handle != s.plans[s.accepted[j]].handle
            && (NeverRestored(Opened(w), events, i) ==>
                  BasisOf(s.plans[s.accepted[i]]) != BasisOf(s.plans[s.accepted[j]]))
  {
    hide Safe, After, NeverRestored, Opened;
    EveryRunIsSafe(w, events);
  }

  // ------------------------------------------------------------ one whole turn

  lemma AfterOneMore(s: System, events: seq<Event>, e: Event)
    ensures After(s, events + [e])
         == match After(s, events)
            case None => None
            case Some(middle) => if Enabled(middle, e) then Some(Step(middle, e)) else None
  {
    assert (events + [e])[..|events|] == events;
  }

  lemma {:induction false} AfterBoth(s: System, first: seq<Event>, second: seq<Event>)
    requires After(s, first).Some?
    ensures After(s, first + second) == After(After(s, first).value, second)
  {
    if second == [] {
      assert first + second == first;
    } else {
      var front := second[..|second| - 1];
      AfterBoth(s, first, front);
      assert first + second == (first + front) + [second[|second| - 1]];
      AfterOneMore(s, first + front, second[|second| - 1]);
    }
  }

  /** The events of a settlement that is compared, promoted and accepted. */
  function Turn(k: nat, p: Plan, w: World): seq<Event> {
    [ReadSource(k), ReadTarget(k), ReadProposal(k), ReadRest(k, p.law, p.policy), Compare(k)]
    + [Mutate(k, w), PromoteReturns(k, true), Leave(k)]
  }

  /** What such a turn leaves. */
  function AfterTurn(s: System, k: nat, w: World): System
    requires Active(s, k) && s.jobs[k].kind.Settlement?
  {
    System(w, G.Step(s.gate, G.Finish(k, false)), s.jobs[k := s.jobs[k].(stage := Ended(Accepted))], s.plans,
           s.accepted + [s.jobs[k].kind.plan])
  }

  /** The draft is still as the plan saw it. */
  predicate DraftUnchanged(w: World, p: Plan)
    requires p.handle < |w.handles|
  {
    var h := w.handles[p.handle];
    h.source == p.source && h.proposal == p.proposal && h.status == p.status
  }

  /** A settlement whose plan is current reads, compares equal, promotes, and is accepted. */
  lemma CurrentPlanIsAccepted(s: System, k: nat, w: World)
    requires Settling(s, k) && s.jobs[k].stage == Fresh && PlannedOutcome(PlanOf(s, k)) == Derived
    requires var p := PlanOf(s, k);
             && DraftUnchanged(s.world, p) && StandsOn(s.world, p)
             && Legal(s.world, w) && w.handles[p.handle].status == SettledDraft
    ensures After(s, Turn(k, PlanOf(s, k), w)) == Some(AfterTurn(s, k, w))
  {
    hide After, Enabled, Legal;
    var p := PlanOf(s, k);
    var steps: seq<Event> := [ReadSource(k), ReadTarget(k), ReadProposal(k), ReadRest(k, p.law, p.policy), Compare(k)];
    Recaptures(s, k, p, steps);
    var promoting := WithStage(s, k, Promoting);
    var rest: seq<Event> := [Mutate(k, w), PromoteReturns(k, true), Leave(k)];
    Promotes(promoting, k, p, w, rest);
    AfterBoth(s, steps, rest);
    StageTwice(s, k, Promoting, Ended(Accepted));
  }

  /**
   Of a draft that has not changed, a plan is accepted in its turn exactly when its target
   stands at the plan's frontier. So a plan on a spent basis waits for a restoring step.
   */
  lemma AcceptedExactlyOnItsFrontier(s: System, k: nat, w: World)
    requires Settling(s, k) && s.jobs[k].stage == Fresh && PlannedOutcome(PlanOf(s, k)) == Derived
    requires var p := PlanOf(s, k);
             DraftUnchanged(s.world, p) && Legal(s.world, w) && w.handles[p.handle].status == SettledDraft
    ensures After(s, Turn(k, PlanOf(s, k), w)).Some? <==> StandsOn(s.world, PlanOf(s, k))
  {
    var p := PlanOf(s, k);
    if StandsOn(s.world, p) {
      CurrentPlanIsAccepted(s, k, w);
    } else {
      var steps: seq<Event> := [ReadSource(k), ReadTarget(k), ReadProposal(k), ReadRest(k, p.law, p.policy), Compare(k)];
      Recaptures(s, k, p, steps);
      var turn := Turn(k, p, w);
      assert turn[..5] == steps && turn[..6][..5] == turn[..5];
      assert turn[..7][..6] == turn[..6] && turn[..7] + [turn[7]] == turn;
      assert After(s, turn[..5]) == Some(WithStage(s, k, Ended(Stale)));
      assert After(s, turn[..6]) == None && After(s, turn[..7]) == None;
    }
  }

  lemma StageTwice(s: System, k: nat, a: Stage, b: Stage)
    requires k < |s.jobs|
    ensures WithStage(WithStage(s, k, a), k, b) == WithStage(s, k, b)
  {
  }

  /** The reads of an undisturbed turn, one by one. */
  lemma TurnReads(s: System, k: nat, p: Plan)
    requires Settling(s, k) && s.jobs[k].stage == Fresh && p == PlanOf(s, k)
    ensures var h, target := s.world.handles[p.handle], s.world.frontiers[p.target];
            var one, two := SourceRead(h.source), TargetRead(h.source, target);
            var three, four := ProposalRead(h.source, target, h.proposal),
                               Recaptured(h.source, target, h.proposal, h.status, p.law, p.policy);
            && Enabled(s, ReadSource(k)) && Step(s, ReadSource(k)) == WithStage(s, k, one)
            && Enabled(WithStage(s, k, one), ReadTarget(k))
            && Step(WithStage(s, k, one), ReadTarget(k)) == WithStage(s, k, two)
            && Enabled(WithStage(s, k, two), ReadProposal(k))
            && Step(WithStage(s, k, two), ReadProposal(k)) == WithStage(s, k, three)
            && Enabled(WithStage(s, k, three), ReadRest(k, p.law, p.policy))
            && Step(WithStage(s, k, three), ReadRest(k, p.law, p.policy)) == WithStage(s, k, four)
            && Enabled(WithStage(s, k, four), Compare(k))
            && Step(WithStage(s, k, four), Compare(k)) == WithStage(s, k, AfterCompare(p, four))
  {
    var h, target := s.world.handles[p.handle], s.world.frontiers[p.target];
    var one, two := SourceRead(h.source), TargetRead(h.source, target);
    var three, four := ProposalRead(h.source, target, h.proposal),
                       Recaptured(h.source, target, h.proposal, h.status, p.law, p.policy);
    StageTwice(s, k, one, two);
    StageTwice(s, k, two, three);
    StageTwice(s, k, three, four);
    StageTwice(s, k, four, AfterCompare(p, four));
  }

  lemma Recaptures(s: System, k: nat, p: Plan, steps: seq<Event>)
    requires Settling(s, k) && s.jobs[k].stage == Fresh && PlannedOutcome(p) == Derived && p == PlanOf(s, k)
    requires DraftUnchanged(s.world, p)
    requires steps == [ReadSource(k), ReadTarget(k), ReadProposal(k), ReadRest(k, p.law, p.policy), Compare(k)]
    ensures After(s, steps) == Some(WithStage(s, k, if StandsOn(s.world, p) then Promoting else Ended(Stale)))
  {
    TurnReads(s, k, p);
    hide Enabled, Step, WithStage, Settling, PlanOf;
    assert After(s, []) == Some(s) && [] + [steps[0]] == steps[..1];
    AfterOneMore(s, [], steps[0]);
    AfterOneMore(s, steps[..1], steps[1]);
    assert steps[..1] + [steps[1]] == steps[..2];
    AfterOneMore(s, steps[..2], steps[2]);
    assert steps[..2] + [steps[2]] == steps[..3];
    AfterOneMore(s, steps[..3], steps[3]);
    assert steps[..3] + [steps[3]] == steps[..4];
    AfterOneMore(s, steps[..4], steps[4]);
    assert steps[..4] + [steps[4]] == steps;
  }

  lemma Promotes(s: System, k: nat, p: Plan, w: World, events: seq<Event>)
    requires Settling(s, k) && s.jobs[k].stage == Promoting && p == PlanOf(s, k)
    requires Legal(s.world, w) && w.handles[p.handle].status == SettledDraft
    requires events == [Mutate(k, w), PromoteReturns(k, true), Leave(k)]
    ensures After(s, events) == Some(AfterTurn(s, k, w))
  {
    BoundStays(p, s.world, w);
    AfterOneMore(s, [], events[0]);
    assert After(s, []) == Some(s) && [] + [events[0]] == events[..1];
    var moved := s.(world := w);
    assert After(s, events[..1]) == Some(moved);
    AfterOneMore(s, events[..1], events[1]);
    assert events[..1] + [events[1]] == events[..2];
    assert Settling(moved, k);
    AfterOneMore(s, events[..2], events[2]);
    assert events[..2] + [events[2]] == events;
  }

  // ----------------------------------------------------------- a counterexample

  function Strand(f: Ref, status: Status): Handle {
    Handle(0, f, "source", "proposal", status)
  }

  function PlanFor(handle: nat, f: Ref): Plan {
    Plan(handle, 0, f, "source", "proposal", ReadyDraft, f, "law", "policy")
  }

  /** Two strands of one target, a settlement of each, and a lane write queued between them. */
  function TwoSettlements(f: Ref): seq<Event> {
    [Preview(PlanFor(0, f)), Preview(PlanFor(1, f)), Issue(Settlement(0)), Issue(Mutation), Issue(Settlement(1)), Begin(0)]
  }

  lemma Then(s: System, events: seq<Event>, e: Event) returns (after: System)
    requires After(s, events).Some? && Enabled(After(s, events).value, e)
    ensures After(s, events + [e]) == Some(after) && after == Step(After(s, events).value, e)
  {
    AfterOneMore(s, events, e);
    after := Step(After(s, events).value, e);
  }

  lemma Previewed(f: Ref) returns (s: System)
    ensures var w := World([f], [Strand(f, ReadyDraft), Strand(f, ReadyDraft)]);
            After(Opened(w), TwoSettlements(f)[..2]) == Some(s) && s == Opened(w).(plans := [PlanFor(0, f), PlanFor(1, f)])
  {
    hide After;
    var o := Opened(World([f], [Strand(f, ReadyDraft), Strand(f, ReadyDraft)]));
    var e := TwoSettlements(f);
    NothingYet(o);
    s := Then(o, [], e[0]);
    assert [] + [e[0]] == e[..1];
    s := Then(o, e[..1], e[1]);
    assert e[..1] + [e[1]] == e[..2];
  }

  lemma Issued(s: System, e: seq<Event>) returns (after: System)
    requires s.gate == G.NEW_GATE && s.jobs == [] && |s.plans| == 2
    requires e == [Issue(Settlement(0)), Issue(Mutation), Issue(Settlement(1)), Begin(0)]
    ensures After(s, e) == Some(after)
    ensures after.jobs == [Job(Settlement(0), Fresh), Job(Mutation, Fresh), Job(Settlement(1), Fresh)]
    ensures after.gate == G.Gate([G.Call(0, G.Active), G.Call(1, G.Waiting), G.Call(2, G.Waiting)], 3, {0}, [0])
    ensures after.plans == s.plans && after.accepted == s.accepted && after.world == s.world
  {
    hide After, BoundTo, Legal, StillSo;
    NothingYet(s);
    after := Then(s, [], e[0]);
    assert [] + [e[0]] == e[..1];
    after := Then(s, e[..1], e[1]);
    assert e[..1] + [e[1]] == e[..2];
    after := Then(s, e[..2], e[2]);
    assert e[..2] + [e[2]] == e[..3];
    after := Then(s, e[..3], e[3]);
    assert e[..3] + [e[3]] == e;
  }

  lemma BothQueued(f: Ref) returns (s: System)
    ensures var w := World([f], [Strand(f, ReadyDraft), Strand(f, ReadyDraft)]);
            After(Opened(w), TwoSettlements(f)) == Some(s)
    ensures s.world == World([f], [Strand(f, ReadyDraft), Strand(f, ReadyDraft)])
    ensures s.jobs == [Job(Settlement(0), Fresh), Job(Mutation, Fresh), Job(Settlement(1), Fresh)]
    ensures s.gate == G.Gate([G.Call(0, G.Active), G.Call(1, G.Waiting), G.Call(2, G.Waiting)], 3, {0}, [0])
    ensures s.plans == [PlanFor(0, f), PlanFor(1, f)] && s.accepted == []
  {
    hide After;
    var e := TwoSettlements(f);
    var previewed := Previewed(f);
    s := Issued(previewed, e[2..]);
    AfterBoth(Opened(World([f], [Strand(f, ReadyDraft), Strand(f, ReadyDraft)])), e[..2], e[2..]);
    assert e[..2] + e[2..] == e;
  }

  lemma NothingYet(s: System)
    ensures After(s, []) == Some(s)
  {
  }

  /** The queued lane write's turn, and the start of the job after it. */
  function WriteTurn(w: World): seq<Event> {
    [Begin(1), Mutate(1, w), Complete(1), Leave(1), Begin(2)]
  }

  lemma WriteGoesThrough(s: System, w: World) returns (after: System)
    requires |s.jobs| == 3 && s.jobs[1] == Job(Mutation, Fresh) && Legal(s.world, w)
    requires s.gate.calls == [G.Call(0, G.Done(false)), G.Call(1, G.Waiting), G.Call(2, G.Waiting)]
    requires s.gate.resolved == {0, 1}
    ensures After(s, WriteTurn(w)) == Some(after)
    ensures after.world == w && after.jobs == s.jobs[1 := Job(Mutation, Ended(Completed))]
    ensures after.gate.calls == [G.Call(0, G.Done(false)), G.Call(1, G.Done(false)), G.Call(2, G.Active)]
    ensures after.plans == s.plans && after.accepted == s.accepted
  {
    hide After;
    var e := WriteTurn(w);
    NothingYet(s);
    after := Then(s, [], e[0]);
    assert [] + [e[0]] == [e[0]];
    after := Then(s, [e[0]], e[1]);
    assert [e[0]] + [e[1]] == [e[0], e[1]];
    after := Then(s, [e[0], e[1]], e[2]);
    assert [e[0], e[1]] + [e[2]] == [e[0], e[1], e[2]];
    after := Then(s, [e[0], e[1], e[2]], e[3]);
    assert [e[0], e[1], e[2]] + [e[3]] == [e[0], e[1], e[2], e[3]];
    after := Then(s, [e[0], e[1], e[2], e[3]], e[4]);
    assert [e[0], e[1], e[2], e[3]] + [e[4]] == e;
  }

  /**
   Fresh promotions alone are not enough: when a lane write brings a target back to an old
   frontier, a second plan against that frontier is accepted too.
   */
  lemma ReusedFrontierAcceptsTwo(f: Ref, g: Ref)
    requires f != g
    ensures var w := World([f], [Strand(f, ReadyDraft), Strand(f, ReadyDraft)]);
            var promoted := World([g], [Strand(f, SettledDraft), Strand(f, ReadyDraft)]);
            var reverted := World([f], [Strand(f, SettledDraft), Strand(f, ReadyDraft)]);
            var last := World([g + "'"], [Strand(f, SettledDraft), Strand(f, SettledDraft)]);
            var events := ((TwoSettlements(f) + Turn(0, PlanFor(0, f), promoted)) + WriteTurn(reverted))
                          + Turn(2, PlanFor(1, f), last);
            && After(Opened(w), events).Some?
            && var s := After(Opened(w), events).value;
               s.accepted == [0, 1] && s.plans == [PlanFor(0, f), PlanFor(1, f)]
               && BasisOf(s.plans[0]) == BasisOf(s.plans[1])
  {
    hide After, Turn, TwoSettlements, WriteTurn;
    var w := World([f], [Strand(f, ReadyDraft), Strand(f, ReadyDraft)]);
    var promoted := World([g], [Strand(f, SettledDraft), Strand(f, ReadyDraft)]);
    var reverted := World([f], [Strand(f, SettledDraft), Strand(f, ReadyDraft)]);
    var last := World([g + "'"], [Strand(f, SettledDraft), Strand(f, SettledDraft)]);
    var one := TwoSettlements(f);
    var two := one + Turn(0, PlanFor(0, f), promoted);
    var three := two + WriteTurn(reverted);
    var a := BothQueued(f);
    CurrentPlanIsAccepted(a, 0, promoted);
    AfterBoth(Opened(w), one, Turn(0, PlanFor(0, f), promoted));
    var b := AfterTurn(a, 0, promoted);
    assert b.gate.resolved == {0, 1};
    var c := WriteGoesThrough(b, reverted);
    AfterBoth(Opened(w), two, WriteTurn(reverted));
    CurrentPlanIsAccepted(c, 2, last);
    AfterBoth(Opened(w), three, Turn(2, PlanFor(1, f), last));
  }
}
