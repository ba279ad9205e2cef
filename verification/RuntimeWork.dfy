/**
 RuntimeActivity.ts and RuntimeSettlement.ts together, as Runtime.ts, RuntimeLaneAdapter.ts and
 RuntimeStrandLaneBinding.ts connect them. A write, a fork or a settlement is admitted once,
 by the `activity.run` around its turn of the mutation gate. What a settlement calls inside the
 turn is the raw execution of its binding, which asks for no admission again.
 */
module RuntimeWork {
  import opened Wrappers
  import A = RuntimeActivity
  import S = RuntimeSettlement

  /**
   What an admitted activity is: a turn of the gate, an operation outside of it, one of the
   capture and the digests a preview makes, or a lease.
   */
  datatype Task = Turn(kind: S.Kind) | Single | Capture(handle: nat) | Digest | Lease

  /** What a capture or digest has read so far. */
  datatype View =
    | Unread
    | SawSource(source: S.Ref)
    | SawTarget(source: S.Ref, target: S.Ref)
    | SawProposal(source: S.Ref, target: S.Ref, proposal: S.Ref)
    | Captured(source: S.Ref, target: S.Ref, proposal: S.Ref, status: S.Status)
    | Digested(digest: S.Ref)

  /** `tasks` and `views` run parallel to the activity's entries; `owners` gives each job its task. */
  datatype Work = Work(activity: A.Activity, system: S.System, tasks: seq<Task>, views: seq<View>, owners: seq<nat>)

  datatype Event =
    | Call(what: Task)
    /** The operation of an admitted call starts; a turn queues at the gate. */
    | Start(task: nat)
    /** A step of the gate or of an admitted job. */
    | Inner(event: S.Event)
    /** A single operation opens a strand. */
    | Opens(task: nat, handle: S.Handle)
    /** A capture reads on. */
    | Looks(task: nat)
    | Digests(task: nat, digest: S.Ref)
    /** A preview returns the plan of its capture and its three digests, which are through. */
    | Previews(plan: S.Plan, capture: nat, law: nat, policy: nat, planDigest: nat)
    | Return(task: nat)
    | Untrack(task: nat)
    | Close
    | BeginRelease
    | EndRelease

  // -------------------------------------------------------------------- steps

  /** How the call asks whether the Runtime is open; no other step does. */
  function Admission(task: Task): A.Event {
    if task.Lease? then A.Acquire else A.Run
  }

  predicate IsStep(w: Work, e: S.Event) {
    !e.Issue? && !e.OpenHandle? && !e.Preview? && S.Enabled(w.system, e)
  }

  predicate IsRunning(w: Work, n: nat) {
    n < |w.tasks| && n < |w.views| && n < |w.activity.entries| && w.activity.entries[n] == A.Running
  }

  /** A capture can read its strand and the strand's parent. */
  predicate CanLook(w: Work, n: nat) {
    && IsRunning(w, n) && w.tasks[n].Capture? && !w.views[n].Captured? && !w.views[n].Digested?
    && w.tasks[n].handle < |w.system.world.handles|
    && w.system.world.handles[w.tasks[n].handle].target < |w.system.world.frontiers|
  }

  /** The next read of a capture: source, target, proposal, status. */
  function Looked(world: S.World, h: S.Handle, view: View): View
    requires h.target < |world.frontiers|
  {
    match view
    case Unread => SawSource(h.source)
    case SawSource(source) => SawTarget(source, world.frontiers[h.target])
    case SawTarget(source, target) => SawProposal(source, target, h.proposal)
    case SawProposal(source, target, proposal) => Captured(source, target, proposal, h.status)
    case _ => view
  }

  predicate HasSettled(w: Work, n: nat, task: Task, view: View) {
    && n < |w.tasks| && n < |w.views| && n < |w.activity.entries|
    && w.tasks[n] == task && w.views[n] == view && w.activity.entries[n] == A.Settled
  }

  /** The plan says what its capture saw and its digests gave, all of them settled. */
  predicate PlannedBy(w: Work, p: S.Plan, capture: nat, law: nat, policy: nat, planDigest: nat) {
    && capture < law < policy < planDigest
    && HasSettled(w, capture, Capture(p.handle), Captured(p.source, p.targetFrontier, p.proposal, p.status))
    && HasSettled(w, law, Digest, Digested(p.law)) && HasSettled(w, policy, Digest, Digested(p.policy))
    && planDigest < |w.views| && HasSettled(w, planDigest, Digest, w.views[planDigest])
    && w.views[planDigest].Digested?
  }

  /** The gate is through with what this task queued. */
  ghost predicate TurnIsOver(w: Work, n: nat) {
    forall j: nat | j < |w.owners| && w.owners[j] == n :: j < |w.system.gate.calls| && w.system.gate.calls[j].phase.Done?
  }

  ghost predicate Enabled(w: Work, e: Event) {
    match e
    case Call(task) => task.Turn? && task.kind.Settlement? ==> task.kind.plan < |w.system.plans|
    case Start(n) =>
      && n < |w.tasks| && A.Enabled(w.activity, A.Begin(n))
      && (w.tasks[n].Turn? ==> S.Enabled(w.system, S.Issue(w.tasks[n].kind)))
    case Inner(event) => IsStep(w, event)
    case Opens(n, handle) => IsRunning(w, n) && w.tasks[n].Single? && S.Enabled(w.system, S.OpenHandle(handle))
    case Looks(n) => CanLook(w, n)
    case Digests(n, _) => IsRunning(w, n) && w.tasks[n].Digest? && w.views[n].Unread?
    case Previews(p, capture, law, policy, planDigest) =>
      PlannedBy(w, p, capture, law, policy, planDigest) && S.Enabled(w.system, S.Preview(p))
    case Return(n) => n < |w.tasks| && A.Enabled(w.activity, A.Settle(n)) && TurnIsOver(w, n)
    case Untrack(n) => A.Enabled(w.activity, A.Untrack(n))
    case Close => true
    case BeginRelease => A.Enabled(w.activity, A.BeginRelease)
    case EndRelease => A.Enabled(w.activity, A.EndRelease)
  }

  ghost function Step(w: Work, e: Event): Work
    requires Enabled(w, e)
  {
    match e
    case Call(task) =>
      var asked := w.(activity := A.Step(w.activity, Admission(task)));
      if A.Refuses(w.activity, Admission(task)) then asked
      else asked.(tasks := w.tasks + [task], views := w.views + [Unread])
    case Start(n) =>
      var started := w.(activity := A.Step(w.activity, A.Begin(n)));
      if !w.tasks[n].Turn? then started
      else started.(system := S.Step(w.system, S.Issue(w.tasks[n].kind)), owners := w.owners + [n])
    case Inner(event) => w.(system := S.Step(w.system, event))
    case Opens(_, handle) => w.(system := S.Step(w.system, S.OpenHandle(handle)))
    case Looks(n) =>
      var h := w.system.world.handles[w.tasks[n].handle];
      w.(views := w.views[n := Looked(w.system.world, h, w.views[n])])
    case Digests(n, digest) => w.(views := w.views[n := Digested(digest)])
    case Previews(p, _, _, _, _) => w.(system := S.Step(w.system, S.Preview(p)))
    case Return(n) => w.(activity := A.Step(w.activity, A.Settle(n)))
    case Untrack(n) => w.(activity := A.Step(w.activity, A.Untrack(n)))
    case Close => w.(activity := A.Step(w.activity, A.Close))
    case BeginRelease => w.(activity := A.Step(w.activity, A.BeginRelease))
    case EndRelease => w.(activity := A.Step(w.activity, A.EndRelease))
  }

  function Opened(world: S.World): Work {
    Work(A.NEW_ACTIVITY, S.Opened(world), [], [], [])
  }

  ghost function After(w: Work, events: seq<Event>): Option<Work> {
    if events == [] then Some(w)
    else
      var front := After(w, events[..|events| - 1]);
      if front.Some? && Enabled(front.value, events[|events| - 1]) then
        Some(Step(front.value, events[|events| - 1]))
      else None
  }

  // ---------------------------------------------------------------- invariant

  /** A job belongs to a started turn, which settles only when the gate is through with the job. */
  predicate OwnedJob(w: Work, j: nat) {
    && j < |w.owners| && j < |w.system.gate.calls| && w.owners[j] < |w.tasks| && w.owners[j] < |w.activity.entries|
    && w.tasks[w.owners[j]].Turn?
    && (w.activity.entries[w.owners[j]] == A.Running
        || (w.activity.entries[w.owners[j]] == A.Settled && w.system.gate.calls[j].phase.Done?))
  }

  /** Only leases are entered as such, and only turns go to the gate. */
  predicate Entered(task: Task, entry: A.Entry) {
    (task.Lease? ==> entry == A.Leased || entry == A.Settled) && (!task.Lease? ==> entry != A.Leased)
  }

  ghost predicate Linked(w: Work) {
    && A.Sound(w.activity) && S.Safe(w.system)
    && |w.tasks| == |w.views| == |w.activity.entries| && |w.owners| == |w.system.jobs| == |w.system.gate.calls|
    && (forall n | 0 <= n < |w.tasks| :: Entered(w.tasks[n], w.activity.entries[n]))
    && forall j: nat | j < |w.owners| :: OwnedJob(w, j)
  }

  /** No step of a settlement system takes back that a call is done, or loses one. */
  lemma DoneStays(s: S.System, e: S.Event)
    requires S.Enabled(s, e)
    ensures var t := S.Step(s, e);
            && |t.gate.calls| == |s.gate.calls| + (if e.Issue? then 1 else 0)
            && |t.jobs| == |s.jobs| + (if e.Issue? then 1 else 0)
            && forall j: nat | j < |s.gate.calls| && s.gate.calls[j].phase.Done? :: t.gate.calls[j].phase.Done?
  {
  }

  lemma SystemStepKeeps(w: Work, e: S.Event)
    requires Linked(w) && S.Enabled(w.system, e) && !e.Issue?
    ensures Linked(w.(system := S.Step(w.system, e)))
  {
    hide A.Sound, S.Safe, S.Enabled, S.Step;
    S.StepKeeps(w.system, e);
    DoneStays(w.system, e);
    var t := w.(system := S.Step(w.system, e));
    forall j: nat | j < |w.owners|
      ensures OwnedJob(t, j)
    {
      assert OwnedJob(w, j);
    }
  }

  lemma StartKeeps(w: Work, n: nat)
    requires Linked(w) && Enabled(w, Start(n))
    ensures Linked(Step(w, Start(n)))
  {
    hide A.Sound, S.Safe, S.Enabled, S.Step;
    A.StepKeeps(w.activity, A.Begin(n));
    if w.tasks[n].Turn? {
      S.StepKeeps(w.system, S.Issue(w.tasks[n].kind));
      DoneStays(w.system, S.Issue(w.tasks[n].kind));
    }
    var t := Step(w, Start(n));
    forall j: nat | j < |t.owners|
      ensures OwnedJob(t, j)
    {
      if j < |w.owners| {
        assert OwnedJob(w, j);
      }
    }
  }

  predicate OfTheActivity(e: Event) {
    e.Call? || e.Return? || e.Untrack? || e.Close? || e.BeginRelease? || e.EndRelease?
  }

  lemma ActivityStepKeeps(w: Work, e: Event)
    requires Linked(w) && Enabled(w, e) && OfTheActivity(e)
    ensures Linked(Step(w, e))
  {
    hide A.Sound, S.Safe, S.Enabled, S.Step;
    var step := match e
      case Call(task) => Admission(task)
      case Return(n) => A.Settle(n)
      case Untrack(n) => A.Untrack(n)
      case Close => A.Close
      case BeginRelease => A.BeginRelease
      case _ => A.EndRelease;
    A.StepKeeps(w.activity, step);
    var t := Step(w, e);
    forall j: nat | j < |t.owners|
      ensures OwnedJob(t, j)
    {
      assert OwnedJob(w, j);
    }
  }

  lemma ViewKeeps(w: Work, n: nat, view: View)
    requires Linked(w) && n < |w.views|
    ensures Linked(w.(views := w.views[n := view]))
  {
    hide A.Sound, S.Safe;
    var t := w.(views := w.views[n := view]);
    forall j: nat | j < |t.owners|
      ensures OwnedJob(t, j)
    {
      assert OwnedJob(w, j);
    }
  }

  lemma StepKeeps(w: Work, e: Event)
    requires Linked(w) && Enabled(w, e)
    ensures Linked(Step(w, e))
  {
    hide Linked;
    match e {
      case Start(n) => StartKeeps(w, n);
      case Inner(event) => SystemStepKeeps(w, event);
      case Opens(_, handle) => SystemStepKeeps(w, S.OpenHandle(handle));
      case Looks(n) => ViewKeeps(w, n, Step(w, e).views[n]);
      case Digests(n, digest) => ViewKeeps(w, n, Digested(digest));
      case Previews(p, _, _, _, _) => SystemStepKeeps(w, S.Preview(p));
      case _ => ActivityStepKeeps(w, e);
    }
  }

  lemma OpenedIsLinked(world: S.World)
    ensures Linked(Opened(world))
  {
    A.NewIsSound();
    S.OpenedIsSafe(world);
  }

  lemma {:induction false} RunsAreLinked(world: S.World, events: seq<Event>)
    requires After(Opened(world), events).Some?
    ensures Linked(After(Opened(world), events).value)
  {
    hide Linked, Enabled, Step, Opened;
    if events == [] {
      OpenedIsLinked(world);
    } else {
      var front := events[..|events| - 1];
      RunsAreLinked(world, front);
      StepKeeps(After(Opened(world), front).value, events[|events| - 1]);
    }
  }

  // ------------------------------------------------------- plans and previews

  /** Four activities were admitted, ran and settled for the plan. */
  ghost predicate Previewed(w: Work, p: S.Plan) {
    exists capture, law, policy, planDigest :: PlannedBy(w, p, capture, law, policy, planDigest)
  }

  /** These four tasks are a capture that saw what the plan says, and digests of law, policy and plan. */
  ghost predicate PreviewTasks(w: Work, p: S.Plan, capture: nat, law: nat, policy: nat, planDigest: nat) {
    && capture < law < policy < planDigest < |w.tasks| && planDigest < |w.views|
    && planDigest < |w.activity.entries|
    && w.tasks[capture] == Capture(p.handle) && w.tasks[law] == w.tasks[policy] == w.tasks[planDigest] == Digest
    && w.views[capture] == Captured(p.source, p.targetFrontier, p.proposal, p.status)
    && w.views[law] == Digested(p.law) && w.views[policy] == Digested(p.policy) && w.views[planDigest].Digested?
    && w.activity.entries[capture] == A.Settled && w.activity.entries[law] == A.Settled
    && w.activity.entries[policy] == A.Settled && w.activity.entries[planDigest] == A.Settled
  }

  lemma PreviewedSays(w: Work, p: S.Plan)
    ensures Previewed(w, p)
       <==> exists capture: nat, law: nat, policy: nat, planDigest: nat ::
              PreviewTasks(w, p, capture, law, policy, planDigest)
  {
    if Previewed(w, p) {
      var capture, law, policy, planDigest :| PlannedBy(w, p, capture, law, policy, planDigest);
      assert PreviewTasks(w, p, capture, law, policy, planDigest);
    }
    if capture: nat, law: nat, policy: nat, planDigest: nat :| PreviewTasks(w, p, capture, law, policy, planDigest) {
      assert PlannedBy(w, p, capture, law, policy, planDigest);
    }
  }

  /** What has settled stays as it is. */
  lemma PreviewedStays(w: Work, later: Work, p: S.Plan)
    requires Previewed(w, p)
    requires |w.tasks| <= |later.tasks| && |w.views| <= |later.views|
    requires |w.activity.entries| <= |later.activity.entries|
    requires forall n: nat | n < |w.tasks| && n < |w.views| && n < |w.activity.entries|
                             && w.activity.entries[n] == A.Settled ::
               later.tasks[n] == w.tasks[n] && later.views[n] == w.views[n]
               && later.activity.entries[n] == A.Settled
    ensures Previewed(later, p)
  {
    var capture, law, policy, planDigest :| PlannedBy(w, p, capture, law, policy, planDigest);
    assert PlannedBy(later, p, capture, law, policy, planDigest);
  }

  ghost predicate PlansPreviewed(w: Work) {
    forall p | p in w.system.plans :: Previewed(w, p)
  }

  lemma OnlyPreviewsPlan(s: S.System, e: S.Event)
    requires S.Enabled(s, e)
    ensures S.Step(s, e).plans == if e.Preview? then s.plans + [e.plan] else s.plans
  {
  }

  lemma SettledStays(w: Work, e: Event, n: nat)
    requires Linked(w) && Enabled(w, e) && n < |w.tasks| && w.activity.entries[n] == A.Settled
    ensures var t := Step(w, e);
            && n < |t.tasks| && n < |t.views| && n < |t.activity.entries|
            && t.tasks[n] == w.tasks[n] && t.views[n] == w.views[n] && t.activity.entries[n] == A.Settled
  {
    hide A.Sound, S.Safe, S.Enabled, S.Step, OwnedJob, PlannedBy, Looked;
  }

  lemma PlansStayPreviewed(w: Work, e: Event)
    requires Linked(w) && PlansPreviewed(w) && Enabled(w, e)
    ensures PlansPreviewed(Step(w, e))
  {
    hide S.Enabled, S.Step, Previewed, PlannedBy, Step, Linked;
    var t := Step(w, e);
    SizesGrow(w, e);
    forall n: nat | n < |w.tasks| && w.activity.entries[n] == A.Settled
      ensures n < |t.tasks| && n < |t.views| && n < |t.activity.entries|
      ensures t.tasks[n] == w.tasks[n] && t.views[n] == w.views[n] && t.activity.entries[n] == A.Settled
    {
      SettledStays(w, e, n);
    }
    forall p | p in w.system.plans
      ensures Previewed(t, p)
    {
      PreviewedStays(w, t, p);
    }
    NewPlan(w, e);
  }

  /** Sizes of the parallel lists, which only grow. */
  lemma SizesGrow(w: Work, e: Event)
    requires Linked(w) && Enabled(w, e)
    ensures |w.tasks| == |w.views| == |w.activity.entries|
    ensures var t := Step(w, e); |w.tasks| <= |t.tasks| == |t.views| == |t.activity.entries|
  {
    hide Enabled, A.Sound, S.Safe, OwnedJob;
    StepKeeps(w, e);
    hide Linked;
    EntriesGrow(w, e);
  }

  lemma EntriesGrow(w: Work, e: Event)
    requires Enabled(w, e)
    ensures |w.tasks| <= |Step(w, e).tasks|
  {
    hide S.Enabled, S.Step, A.Enabled, A.Step, PlannedBy, Looked;
  }

  /** Only a preview adds a plan, and its own activities are the ones it waited for. */
  lemma NewPlan(w: Work, e: Event)
    requires Enabled(w, e)
    ensures forall p | p in Step(w, e).system.plans :: p in w.system.plans || Previewed(Step(w, e), p)
  {
    hide S.Enabled, S.Step, PlannedBy, Looked;
    match e {
      case Start(n) =>
        if w.tasks[n].Turn? {
          OnlyPreviewsPlan(w.system, S.Issue(w.tasks[n].kind));
        }
      case Inner(event) => OnlyPreviewsPlan(w.system, event);
      case Opens(_, handle) => OnlyPreviewsPlan(w.system, S.OpenHandle(handle));
      case Previews(p, capture, law, policy, planDigest) =>
        OnlyPreviewsPlan(w.system, S.Preview(p));
        PlanIsPreviewed(w, e);
      case _ =>
    }
  }

  lemma PlanIsPreviewed(w: Work, e: Event)
    requires Enabled(w, e) && e.Previews?
    ensures Previewed(Step(w, e), e.plan)
  {
    hide S.Enabled, S.Step;
    assert PlannedBy(Step(w, e), e.plan, e.capture, e.law, e.policy, e.planDigest);
  }

  /**
   Over any run, every plan is what one admitted capture saw and three admitted digests gave;
   all four had settled before it was returned.
   */
  lemma {:induction false} EveryPlanWasPreviewed(world: S.World, events: seq<Event>)
    requires After(Opened(world), events).Some?
    ensures PlansPreviewed(After(Opened(world), events).value)
    ensures forall p | p in After(Opened(world), events).value.system.plans ::
              exists capture: nat, law: nat, policy: nat, planDigest: nat ::
                PreviewTasks(After(Opened(world), events).value, p, capture, law, policy, planDigest)
  {
    forall p | p in After(Opened(world), events).value.system.plans
      ensures PlansPreviewed(After(Opened(world), events).value) ==>
                exists capture: nat, law: nat, policy: nat, planDigest: nat ::
                  PreviewTasks(After(Opened(world), events).value, p, capture, law, policy, planDigest)
    {
      PreviewedSays(After(Opened(world), events).value, p);
    }
    hide PreviewTasks;
    hide Linked, Enabled, Step, Previewed;
    if events != [] {
      var front := events[..|events| - 1];
      EveryPlanWasPreviewed(world, front);
      RunsAreLinked(world, front);
      PlansStayPreviewed(After(Opened(world), front).value, events[|events| - 1]);
    }
  }

  // ------------------------------------------------------ what captures have seen

  /** The world as it stood before step `i` of a run. */
  ghost predicate Stood(world: S.World, events: seq<Event>, i: nat, w: S.World) {
    i <= |events| && After(Opened(world), events[..i]).Some? && After(Opened(world), events[..i]).value.system.world == w
  }

  /** What a capture of strand `h` read stood at moments of the run, one after the other. */
  ghost predicate SeenDuring(world: S.World, events: seq<Event>, h: nat, view: View) {
    match view
    case Unread => true
    case Digested(_) => true
    case SawSource(source) =>
      exists i, a :: Stood(world, events, i, a) && h < |a.handles| && a.handles[h].source == source
    case SawTarget(source, target) => SeenSourceTarget(world, events, h, source, target, |events|)
    case SawProposal(source, target, proposal) =>
      exists k: nat, c ::
        && Stood(world, events, k, c) && h < |c.handles| && c.handles[h].proposal == proposal
        && SeenSourceTarget(world, events, h, source, target, k)
    case Captured(source, target, proposal, status) =>
      exists k: nat, c, l: nat, d ::
        && k <= l && Stood(world, events, k, c) && h < |c.handles| && c.handles[h].proposal == proposal
        && Stood(world, events, l, d) && h < |d.handles| && d.handles[h].status == status
        && SeenSourceTarget(world, events, h, source, target, k)
  }

  ghost predicate SeenSourceTarget(
    world: S.World, events: seq<Event>, h: nat, source: S.Ref, target: S.Ref, before: nat)
  {
    exists i: nat, a, j: nat, b ::
      && i <= j <= before && Stood(world, events, i, a) && h < |a.handles| && a.handles[h].source == source
      && Stood(world, events, j, b) && h < |b.handles| && b.handles[h].target < |b.frontiers|
      && b.frontiers[b.handles[h].target] == target
  }

  ghost predicate CapturesSaw(world: S.World, events: seq<Event>, w: Work) {
    |w.tasks| == |w.views|
    && forall n | 0 <= n < |w.tasks| && w.tasks[n].Capture? :: SeenDuring(world, events, w.tasks[n].handle, w.views[n])
  }

  lemma StoodBefore(world: S.World, events: seq<Event>, e: Event, i: nat, w: S.World)
    requires Stood(world, events, i, w)
    ensures Stood(world, events + [e], i, w)
  {
    assert (events + [e])[..i] == events[..i];
  }

  lemma SeenEarlier(world: S.World, events: seq<Event>, e: Event, h: nat, source: S.Ref, target: S.Ref, before: nat)
    requires SeenSourceTarget(world, events, h, source, target, before)
    ensures forall later: nat | before <= later :: SeenSourceTarget(world, events + [e], h, source, target, later)
  {
    hide Stood;
    var i: nat, a, j: nat, b :|
      && i <= j <= before && Stood(world, events, i, a) && h < |a.handles| && a.handles[h].source == source
      && Stood(world, events, j, b) && h < |b.handles| && b.handles[h].target < |b.frontiers|
      && b.frontiers[b.handles[h].target] == target;
    StoodBefore(world, events, e, i, a);
    StoodBefore(world, events, e, j, b);
  }

  lemma SeenBefore(world: S.World, events: seq<Event>, e: Event, h: nat, view: View)
    requires SeenDuring(world, events, h, view)
    ensures SeenDuring(world, events + [e], h, view)
  {
    hide Stood, SeenSourceTarget;
    match view {
      case SawSource(source) =>
        var i, a :| Stood(world, events, i, a) && h < |a.handles| && a.handles[h].source == source;
        StoodBefore(world, events, e, i, a);
      case SawTarget(source, target) => SeenEarlier(world, events, e, h, source, target, |events|);
      case SawProposal(source, target, proposal) =>
        var k: nat, c :|
          && Stood(world, events, k, c) && h < |c.handles| && c.handles[h].proposal == proposal
          && SeenSourceTarget(world, events, h, source, target, k);
        StoodBefore(world, events, e, k, c);
        SeenEarlier(world, events, e, h, source, target, k);
      case Captured(source, target, proposal, status) =>
        var k: nat, c, l: nat, d :|
          && k <= l && Stood(world, events, k, c) && h < |c.handles| && c.handles[h].proposal == proposal
          && Stood(world, events, l, d) && h < |d.handles| && d.handles[h].status == status
          && SeenSourceTarget(world, events, h, source, target, k);
        StoodBefore(world, events, e, k, c);
        StoodBefore(world, events, e, l, d);
        SeenEarlier(world, events, e, h, source, target, k);
      case _ =>
    }
  }

  lemma StandsNow(world: S.World, events: seq<Event>, e: Event)
    requires After(Opened(world), events).Some?
    ensures Stood(world, events, |events|, After(Opened(world), events).value.system.world)
    ensures Stood(world, events + [e], |events|, After(Opened(world), events).value.system.world)
  {
    assert events[..|events|] == events && (events + [e])[..|events|] == events;
  }

  /** One more read, of the world as it stands. */
  lemma LookedDuring(world: S.World, events: seq<Event>, e: Event, h: nat, view: View)
    requires After(Opened(world), events).Some? && SeenDuring(world, events, h, view)
    requires var w := After(Opened(world), events).value.system.world;
             h < |w.handles| && w.handles[h].target < |w.frontiers|
    ensures var w := After(Opened(world), events).value.system.world;
            SeenDuring(world, events + [e], h, Looked(w, w.handles[h], view))
  {
    hide Stood, After;
    var w, n := After(Opened(world), events).value.system.world, |events|;
    StandsNow(world, events, e);
    match view {
      case SawSource(source) =>
        var i, a :| Stood(world, events, i, a) && h < |a.handles| && a.handles[h].source == source;
        StoodAt(world, events, i, a);
        StoodBefore(world, events, e, i, a);
        assert SeenSourceTarget(world, events + [e], h, source, w.frontiers[w.handles[h].target], n + 1);
      case SawTarget(source, target) => SeenEarlier(world, events, e, h, source, target, n);
      case SawProposal(source, target, proposal) =>
        var k: nat, c :|
          && Stood(world, events, k, c) && h < |c.handles| && c.handles[h].proposal == proposal
          && SeenSourceTarget(world, events, h, source, target, k);
        StoodAt(world, events, k, c);
        StoodBefore(world, events, e, k, c);
        SeenEarlier(world, events, e, h, source, target, k);
      case Unread =>
      case _ => SeenBefore(world, events, e, h, view);
    }
  }

  lemma StoodAt(world: S.World, events: seq<Event>, i: nat, w: S.World)
    requires Stood(world, events, i, w)
    ensures i <= |events|
  {
  }

  /** A step changes no task, and no view but that of the task it reads for. */
  lemma ViewsByStep(w: Work, e: Event, n: nat)
    requires Enabled(w, e) && |w.tasks| == |w.views| && n < |Step(w, e).tasks|
    ensures var t := Step(w, e);
            && |t.tasks| == |t.views|
            && if n >= |w.tasks| then t.views[n] == Unread
               else
                 && t.tasks[n] == w.tasks[n]
                 && t.views[n] == if e == Looks(n) then
                                    var world := w.system.world;
                                    Looked(world, world.handles[w.tasks[n].handle], w.views[n])
                                  else if e.Digests? && e.task == n then Digested(e.digest)
                                  else w.views[n]
  {
    hide S.Enabled, S.Step, A.Enabled, A.Step, Looked, PlannedBy;
  }

  lemma {:induction false} EveryCaptureSaw(world: S.World, events: seq<Event>)
    requires After(Opened(world), events).Some?
    ensures CapturesSaw(world, events, After(Opened(world), events).value)
  {
    hide Enabled, Step, SeenDuring, Looked;
    if events != [] {
      var front, e := events[..|events| - 1], events[|events| - 1];
      EveryCaptureSaw(world, front);
      var w := After(Opened(world), front).value;
      var t := Step(w, e);
      assert events == front + [e];
      TasksKeepTheirViews(w, e);
      forall n: nat | n < |t.tasks| && t.tasks[n].Capture?
        ensures SeenDuring(world, events, t.tasks[n].handle, t.views[n])
      {
        ViewsByStep(w, e, n);
        if n >= |w.tasks| {
          NothingSeen(world, events, t.tasks[n].handle);
        } else if e == Looks(n) {
          CanLookNow(w, n);
          LookedDuring(world, front, e, w.tasks[n].handle, w.views[n]);
        } else if e.Digests? && e.task == n {
          DigestsAreNoCaptures(w, e);
        } else {
          SeenBefore(world, front, e, w.tasks[n].handle, w.views[n]);
        }
      }
    }
  }

  lemma TasksKeepTheirViews(w: Work, e: Event)
    requires Enabled(w, e) && |w.tasks| == |w.views|
    ensures |Step(w, e).tasks| == |Step(w, e).views|
  {
    hide S.Enabled, S.Step, A.Enabled, A.Step, Looked, PlannedBy;
  }

  lemma NothingSeen(world: S.World, events: seq<Event>, h: nat)
    ensures SeenDuring(world, events, h, Unread)
  {
  }

  lemma CanLookNow(w: Work, n: nat)
    requires Enabled(w, Looks(n))
    ensures n < |w.tasks| && w.tasks[n].Capture? && w.tasks[n].handle < |w.system.world.handles|
    ensures w.system.world.handles[w.tasks[n].handle].target < |w.system.world.frontiers|
  {
  }

  lemma DigestsAreNoCaptures(w: Work, e: Event)
    requires Enabled(w, e) && e.Digests?
    ensures e.task < |w.tasks| && w.tasks[e.task].Digest?
  {
  }

  /**
   Over any run, what a plan says of its strand stood at moments of the run, in this order: its
   source, its target's frontier, its proposal, and its status.
   */
  lemma EveryPlanSawItsStrand(world: S.World, events: seq<Event>, p: S.Plan)
    requires After(Opened(world), events).Some? && p in After(Opened(world), events).value.system.plans
    ensures SeenDuring(world, events, p.handle, Captured(p.source, p.targetFrontier, p.proposal, p.status))
  {
    hide After, SeenDuring, PlannedBy, Opened;
    EveryPlanWasPreviewed(world, events);
    EveryCaptureSaw(world, events);
    var w := After(Opened(world), events).value;
    PreviewedSays(w, p);
    var capture: nat, law: nat, policy: nat, planDigest: nat :| PreviewTasks(w, p, capture, law, policy, planDigest);
  }

  // -------------------------------------------------------------- projections

  /** The step a step of the whole is for the settlement system, if any. */
  ghost function SystemStep(w: Work, e: Event): seq<S.Event> {
    match e
    case Start(n) => if n < |w.tasks| && w.tasks[n].Turn? then [S.Issue(w.tasks[n].kind)] else []
    case Inner(event) => [event]
    case Opens(_, handle) => [S.OpenHandle(handle)]
    case Previews(p, _, _, _, _) => [S.Preview(p)]
    case _ => []
  }

  function ActivityStep(e: Event): seq<A.Event> {
    match e
    case Call(task) => [Admission(task)]
    case Start(n) => [A.Begin(n)]
    case Inner(_) => []
    case Opens(_, _) => []
    case Looks(_) => []
    case Digests(_, _) => []
    case Previews(_, _, _, _, _) => []
    case Return(n) => [A.Settle(n)]
    case Untrack(n) => [A.Untrack(n)]
    case Close => [A.Close]
    case BeginRelease => [A.BeginRelease]
    case EndRelease => [A.EndRelease]
  }

  ghost function SystemRun(w: Work, events: seq<Event>): seq<S.Event> {
    if events == [] then []
    else
      var front := events[..|events| - 1];
      SystemRun(w, front)
      + match After(w, front)
        case None => []
        case Some(middle) => SystemStep(middle, events[|events| - 1])
  }

  function ActivityRun(events: seq<Event>): seq<A.Event> {
    if events == [] then [] else ActivityRun(events[..|events| - 1]) + ActivityStep(events[|events| - 1])
  }

  /** Every run is a run of the settlement system and one of the activity, so both keep their promises. */
  lemma {:induction false} RunsOfBoth(world: S.World, events: seq<Event>)
    requires After(Opened(world), events).Some?
    ensures S.After(S.Opened(world), SystemRun(Opened(world), events))
         == Some(After(Opened(world), events).value.system)
    ensures A.After(ActivityRun(events)) == Some(After(Opened(world), events).value.activity)
  {
    hide S.Enabled, S.Step, S.After, A.After, A.Enabled, A.Step, Enabled, Step, SystemStep, ActivityStep;
    if events == [] {
      NothingRan(world);
    } else {
      var front, e := events[..|events| - 1], events[|events| - 1];
      RunsOfBoth(world, front);
      var middle := After(Opened(world), front).value;
      StepOfBoth(middle, e);
      var system, activity := SystemRun(Opened(world), front), ActivityRun(front);
      assert SystemRun(Opened(world), events) == system + SystemStep(middle, e);
      if SystemStep(middle, e) == [] {
        assert system + [] == system;
      } else {
        S.AfterOneMore(S.Opened(world), system, SystemStep(middle, e)[0]);
        assert SystemStep(middle, e) == [SystemStep(middle, e)[0]];
      }
      assert ActivityRun(events) == activity + ActivityStep(e);
      if ActivityStep(e) == [] {
        assert activity + [] == activity;
      } else {
        ActivityOneMore(activity, ActivityStep(e)[0]);
        assert ActivityStep(e) == [ActivityStep(e)[0]];
      }
    }
  }

  lemma StepOfBoth(w: Work, e: Event)
    requires Enabled(w, e)
    ensures var inner := SystemStep(w, e);
            if inner == [] then Step(w, e).system == w.system
            else |inner| == 1 && S.Enabled(w.system, inner[0]) && Step(w, e).system == S.Step(w.system, inner[0])
    ensures var inner := ActivityStep(e);
            if inner == [] then Step(w, e).activity == w.activity
            else |inner| == 1 && A.Enabled(w.activity, inner[0]) && Step(w, e).activity == A.Step(w.activity, inner[0])
  {
    hide S.Enabled, S.Step, A.Enabled, A.Step;
    assert A.Enabled(w.activity, A.Run) && A.Enabled(w.activity, A.Acquire) && A.Enabled(w.activity, A.Close) by {
      AlwaysAsked(w.activity);
    }
  }

  lemma AlwaysAsked(a: A.Activity)
    ensures A.Enabled(a, A.Run) && A.Enabled(a, A.Acquire) && A.Enabled(a, A.Close)
  {
  }

  lemma NothingRan(world: S.World)
    ensures S.After(S.Opened(world), []) == Some(S.Opened(world)) && A.After([]) == Some(A.NEW_ACTIVITY)
  {
  }

  lemma ActivityOneMore(events: seq<A.Event>, e: A.Event)
    ensures A.After(events + [e])
         == match A.After(events)
            case None => None
            case Some(middle) => if A.Enabled(middle, e) then Some(A.Step(middle, e)) else None
  {
    assert (events + [e])[..|events|] == events;
  }

  // ------------------------------------------------------ before any release

  /** A step that needs the Runtime's resources: anything but handing out a finished preview. */
  predicate Works(e: Event) {
    e.Inner? || e.Opens? || e.Looks? || e.Digests?
  }

  /** The call a step of the settlement system is about. */
  function JobOf(e: S.Event): nat
    requires !e.Issue? && !e.OpenHandle? && !e.Preview?
  {
    e.job
  }

  lemma StepsAreOfUnfinishedJobs(s: S.System, e: S.Event)
    requires S.Enabled(s, e) && !e.Issue? && !e.OpenHandle? && !e.Preview?
    ensures JobOf(e) < |s.gate.calls| && !s.gate.calls[JobOf(e)].phase.Done?
  {
  }

  /** Whatever an admitted activity does, it does before local resources are released. */
  lemma WorksBeforeRelease(w: Work, e: Event)
    requires Linked(w) && Enabled(w, e) && Works(e)
    ensures w.activity.releases == 0 && !A.Enabled(w.activity, A.BeginRelease)
  {
    hide A.Sound, S.Safe, S.Enabled;
    A.ReleaseWaitsForEverything(w.activity);
    if e.Inner? {
      StepsAreOfUnfinishedJobs(w.system, e.event);
      assert OwnedJob(w, JobOf(e.event));
      assert w.activity.entries[w.owners[JobOf(e.event)]] == A.Running;
    } else {
      assert w.activity.entries[e.task] == A.Running;
    }
    assert !A.AllSettled(w.activity);
  }

  /** So in every run: each step of a job, a strand opening or a preview precedes the release. */
  lemma EveryRunWorksBeforeItsRelease(world: S.World, events: seq<Event>, i: nat)
    requires After(Opened(world), events).Some? && i < |events| && Works(events[i])
    ensures After(Opened(world), events[..i]).Some?
    ensures After(Opened(world), events[..i]).value.activity.releases == 0
  {
    hide Linked, Enabled, Step, Opened, Works;
    PrefixPossible(Opened(world), events, i);
    PrefixPossible(Opened(world), events, i + 1);
    assert events[..i + 1][..i] == events[..i];
    RunsAreLinked(world, events[..i]);
    WorksBeforeRelease(After(Opened(world), events[..i]).value, events[i]);
  }

  lemma {:induction false} PrefixPossible(w: Work, events: seq<Event>, n: nat)
    requires After(w, events).Some? && n <= |events|
    ensures After(w, events[..n]).Some?
    decreases |events|
  {
    hide Enabled, Step;
    if n < |events| {
      PrefixPossible(w, events[..|events| - 1], n);
      assert events[..|events| - 1][..n] == events[..n];
    } else {
      assert events[..n] == events;
    }
  }

  // ----------------------------------------------------- a close in between

  /** The same work in progress, whether or not the Runtime is closing. */
  predicate SameWork(v: Work, w: Work) {
    && v.system == w.system && v.tasks == w.tasks && v.views == w.views && v.owners == w.owners
    && v.activity.entries == w.activity.entries && v.activity.active == w.activity.active
  }

  /** Steps of what has been admitted: neither a new admission nor part of closing. */
  predicate Continues(e: Event) {
    e.Start? || e.Inner? || e.Opens? || e.Looks? || e.Digests? || e.Previews? || e.Return? || e.Untrack?
  }

  lemma SameStep(v: Work, w: Work, e: Event)
    requires SameWork(v, w) && Continues(e)
    ensures Enabled(v, e) <==> Enabled(w, e)
    ensures Enabled(v, e) ==> SameWork(Step(v, e), Step(w, e))
  {
    hide S.Enabled, S.Step;
  }

  lemma {:induction false} SameRun(v: Work, w: Work, events: seq<Event>)
    requires SameWork(v, w) && forall k | 0 <= k < |events| :: Continues(events[k])
    ensures After(v, events).Some? <==> After(w, events).Some?
    ensures After(v, events).Some? ==> SameWork(After(v, events).value, After(w, events).value)
  {
    hide Enabled, Step, SameWork;
    if events != [] {
      var front := events[..|events| - 1];
      SameRun(v, w, front);
      if After(v, front).Some? {
        SameStep(After(v, front).value, After(w, front).value, events[|events| - 1]);
      }
    }
  }

  /** Calls made after a close are refused and change nothing at all. */
  lemma CallsAreRefused(w: Work, task: Task)
    requires w.activity.status != A.Open && Enabled(w, Call(task))
    ensures A.Refuses(w.activity, Admission(task)) && Step(w, Call(task)) == w
  {
  }

  /**
   A close that falls anywhere into admitted work changes neither which steps it can take nor
   what they lead to.
   */
  lemma CloseChangesNothing(w: Work, first: seq<Event>, second: seq<Event>)
    requires forall k | 0 <= k < |second| :: Continues(second[k])
    ensures After(w, first + second).Some? <==> After(w, first + [Close] + second).Some?
    ensures After(w, first + second).Some? ==>
              SameWork(After(w, first + second).value, After(w, first + [Close] + second).value)
  {
    hide Enabled, Step, SameWork;
    AfterBoth(w, first, second);
    AfterBoth(w, first + [Close], second);
    assert (first + [Close])[..|first|] == first;
    match After(w, first) {
      case None =>
      case Some(middle) =>
        ClosedSameWork(middle);
        SameRun(middle, Step(middle, Close), second);
    }
  }

  lemma ClosedSameWork(w: Work)
    ensures Enabled(w, Close) && SameWork(w, Step(w, Close))
  {
  }

  lemma {:induction false} AfterBoth(w: Work, first: seq<Event>, second: seq<Event>)
    ensures After(w, first + second)
         == match After(w, first)
            case None => None
            case Some(middle) => After(middle, second)
  {
    hide Enabled, Step;
    if second == [] {
      assert first + second == first;
    } else {
      var front := second[..|second| - 1];
      AfterBoth(w, first, front);
      assert (first + second)[..|first + second| - 1] == first + front;
    }
  }

  // ---------------------------------------------- the raw and the gated execution

  function Inners(events: seq<S.Event>): (r: seq<Event>)
    ensures |r| == |events| && forall k | 0 <= k < |r| :: r[k] == Inner(events[k])
  {
    seq(|events|, k requires 0 <= k < |events| => Inner(events[k]))
  }

  /**
   The steps of admitted jobs are the settlement system's own: they can be taken open, closing
   or closed, and the activity does not notice. So every theorem about its turns holds here,
   and none of their steps asks for admission.
   */
  lemma {:induction false} InnerStepsAskNothing(w: Work, events: seq<S.Event>)
    requires forall k | 0 <= k < |events| :: !events[k].Issue? && !events[k].OpenHandle? && !events[k].Preview?
    ensures After(w, Inners(events))
         == match S.After(w.system, events)
            case None => None
            case Some(system) => Some(w.(system := system))
  {
    hide S.Enabled, S.Step;
    if events != [] {
      var front := events[..|events| - 1];
      InnerStepsAskNothing(w, front);
      assert Inners(events)[..|events| - 1] == Inners(front);
    }
  }

  /** A settlement of a current plan is accepted even if the Runtime is closing by then. */
  lemma CurrentPlanIsAcceptedWhileClosing(w: Work, k: nat, world: S.World)
    requires S.Settling(w.system, k) && w.system.jobs[k].stage == S.Fresh
    requires S.PlannedOutcome(S.PlanOf(w.system, k)) == S.Derived
    requires var p := S.PlanOf(w.system, k);
             && S.DraftUnchanged(w.system.world, p) && S.StandsOn(w.system.world, p)
             && S.Legal(w.system.world, world) && world.handles[p.handle].status == S.SettledDraft
    ensures After(w, Inners(S.Turn(k, S.PlanOf(w.system, k), world)))
         == Some(w.(system := S.AfterTurn(w.system, k, world)))
  {
    S.CurrentPlanIsAccepted(w.system, k, world);
    InnerStepsAskNothing(w, S.Turn(k, S.PlanOf(w.system, k), world));
  }

  /**
   Where a settlement calls its execution: the capture and both digests are called together,
   before the first read, and the promotion as soon as the basis matches.
   */
  predicate CallsExecution(s: S.System, e: S.Event, k: nat) {
    && S.Enabled(s, e)
    && (e == S.ReadSource(k) || (e == S.Compare(k) && S.AfterCompare(S.PlanOf(s, k), s.jobs[k].stage) == S.Promoting))
  }

  predicate Asks(w: Work, e: Event, k: nat) {
    e.Inner? && CallsExecution(w.system, e.event, k)
  }

  lemma CallsCanThrow(s: S.System, e: S.Event, k: nat)
    requires CallsExecution(s, e, k)
    ensures S.Enabled(s, S.Throw(k)) && k < |s.jobs| && Threw(S.Step(s, S.Throw(k)), k)
  {
    hide S.BoundTo, S.AfterCompare;
  }

  predicate Threw(s: S.System, k: nat) {
    k < |s.jobs| && s.jobs[k].stage == S.Ended(S.Threw)
  }

  /**
   Job `k` as it would run with the binding's other methods, which previews use: each call asks
   for admission, and throws if it is refused.
   */
  ghost function GatedStep(w: Work, e: Event, k: nat): Work
    requires Enabled(w, e)
  {
    if Asks(w, e, k) && A.Refuses(w.activity, A.Run) then
      CallsCanThrow(w.system, e.event, k);
      w.(system := S.Step(w.system, S.Throw(k)))
    else Step(w, e)
  }

  ghost function GatedAfter(w: Work, events: seq<Event>, k: nat): Option<Work> {
    if events == [] then Some(w)
    else
      var front := GatedAfter(w, events[..|events| - 1], k);
      if front.Some? && Enabled(front.value, events[|events| - 1]) then
        Some(GatedStep(front.value, events[|events| - 1], k))
      else None
  }

  /** Step `i` of a run calls the execution of job `k` after a close. */
  ghost predicate AsksAfterClose(w: Work, events: seq<Event>, k: nat, i: nat)
    requires i < |events|
  {
    Close in events[..i] && After(w, events[..i]).Some? && Asks(After(w, events[..i]).value, events[i], k)
  }

  ghost predicate GatedThrewBy(w: Work, events: seq<Event>, k: nat, n: nat)
    requires n <= |events|
  {
    GatedAfter(w, events[..n], k).Some? && Threw(GatedAfter(w, events[..n], k).value.system, k)
  }

  lemma {:induction false} OpenUntilClose(world: S.World, events: seq<Event>)
    requires After(Opened(world), events).Some?
    ensures After(Opened(world), events).value.activity.status == A.Open <==> Close !in events
  {
    hide Linked, Enabled, Step, A.Enabled, A.Step, A.Sound, SystemStep, ActivityStep;
    if events != [] {
      var front, e := events[..|events| - 1], events[|events| - 1];
      OpenUntilClose(world, front);
      var middle := After(Opened(world), front).value;
      ClosedByClose(world, front, e);
      assert events == front + [e];
    }
  }

  lemma ClosedByClose(world: S.World, events: seq<Event>, e: Event)
    requires After(Opened(world), events).Some? && Enabled(After(Opened(world), events).value, e)
    ensures var w := After(Opened(world), events).value;
            Step(w, e).activity.status == A.Open <==> w.activity.status == A.Open && e != Close
  {
    hide Enabled, Step, A.Enabled, A.Step, A.Sound, SystemStep, Opened, After, S.Safe, OwnedJob;
    var w := After(Opened(world), events).value;
    RunsAreLinked(world, events);
    StepOfBoth(w, e);
    if ActivityStep(e) != [] {
      A.OpenUntilClose(w.activity, ActivityStep(e)[0]);
    }
  }

  /** Until a call is refused, a gated run is the run itself. */
  lemma {:induction false} GatedIsRawUntilRefused(world: S.World, events: seq<Event>, k: nat, n: nat)
    requires After(Opened(world), events).Some? && n <= |events|
    requires forall i: nat | i < n :: !AsksAfterClose(Opened(world), events, k, i)
    ensures GatedAfter(Opened(world), events[..n], k) == After(Opened(world), events[..n])
    decreases n
  {
    hide Enabled, Step, Asks, Opened;
    PrefixPossible(Opened(world), events, n);
    if n > 0 {
      GatedIsRawUntilRefused(world, events, k, n - 1);
      assert events[..n][..n - 1] == events[..n - 1];
      PrefixPossible(Opened(world), events, n - 1);
      OpenUntilClose(world, events[..n - 1]);
      assert !AsksAfterClose(Opened(world), events, k, n - 1);
    }
  }

  lemma ThrowsByThrowOnly(s: S.System, e: S.Event, k: nat)
    requires S.Enabled(s, e) && e != S.Throw(k) && !Threw(s, k)
    ensures !Threw(S.Step(s, e), k)
  {
    hide S.BoundTo, S.Legal, S.BasisMatches;
  }

  lemma {:induction false} NeverThrew(world: S.World, events: seq<Event>, k: nat)
    requires After(Opened(world), events).Some? && Inner(S.Throw(k)) !in events
    ensures !Threw(After(Opened(world), events).value.system, k)
  {
    hide Enabled, Step, SystemStep, ActivityStep, S.Enabled, S.Step, Threw;
    if events == [] {
      NobodyThrewYet(world, k);
    } else {
      var front, e := events[..|events| - 1], events[|events| - 1];
      NeverThrew(world, front, k);
      var middle := After(Opened(world), front).value;
      StepOfBoth(middle, e);
      if SystemStep(middle, e) != [] {
        ThrowingStep(middle, e, k);
        ThrowsByThrowOnly(middle.system, SystemStep(middle, e)[0], k);
      }
    }
  }

  lemma NobodyThrewYet(world: S.World, k: nat)
    ensures !Threw(Opened(world).system, k)
  {
  }

  lemma ThrowingStep(w: Work, e: Event, k: nat)
    requires SystemStep(w, e) != [] && e != Inner(S.Throw(k))
    ensures SystemStep(w, e)[0] != S.Throw(k)
  {
  }

  /** The first refused call makes the job throw. */
  lemma {:induction false} FirstRefusedCallThrows(world: S.World, events: seq<Event>, k: nat, i: nat)
    requires After(Opened(world), events).Some? && i < |events| && AsksAfterClose(Opened(world), events, k, i)
    ensures exists n: nat :: n <= |events| && GatedThrewBy(Opened(world), events, k, n)
    decreases i
  {
    hide Enabled, Step, Asks, Opened, After;
    if j: nat :| j < i && AsksAfterClose(Opened(world), events, k, j) {
      FirstRefusedCallThrows(world, events, k, j);
    } else {
      GatedIsRawUntilRefused(world, events, k, i);
      RefusedCallThrows(world, events, k, i);
      assert GatedThrewBy(Opened(world), events, k, i + 1);
    }
  }

  lemma RefusedCallThrows(world: S.World, events: seq<Event>, k: nat, i: nat)
    requires After(Opened(world), events).Some? && i < |events| && AsksAfterClose(Opened(world), events, k, i)
    requires GatedAfter(Opened(world), events[..i], k) == After(Opened(world), events[..i])
    ensures GatedThrewBy(Opened(world), events, k, i + 1)
  {
    hide Step, Opened, CallsExecution, Enabled, Threw;
    PrefixPossible(Opened(world), events, i);
    PrefixPossible(Opened(world), events, i + 1);
    assert events[..i + 1][..i] == events[..i];
    OpenUntilClose(world, events[..i]);
    CallsCanThrow(After(Opened(world), events[..i]).value.system, events[i].event, k);
  }

  /**
   A settlement that called its execution through those methods would be refused, and throw,
   in exactly the runs in which a close precedes one of its calls. The raw execution of the
   same runs never throws on its own account.
   */
  lemma GatedSettlementsThrowAfterClose(world: S.World, events: seq<Event>, k: nat)
    requires After(Opened(world), events).Some? && Inner(S.Throw(k)) !in events
    ensures (exists n: nat :: n <= |events| && GatedThrewBy(Opened(world), events, k, n))
       <==> exists i: nat :: i < |events| && AsksAfterClose(Opened(world), events, k, i)
    ensures !Threw(After(Opened(world), events).value.system, k)
  {
    hide Enabled, Step, Asks, Opened, After, GatedAfter, Threw;
    NeverThrew(world, events, k);
    if i: nat :| i < |events| && AsksAfterClose(Opened(world), events, k, i) {
      FirstRefusedCallThrows(world, events, k, i);
    } else {
      forall n: nat | n <= |events|
        ensures !GatedThrewBy(Opened(world), events, k, n)
      {
        GatedIsRawUntilRefused(world, events, k, n);
        PrefixPossible(Opened(world), events, n);
        NeverThrew(world, events[..n], k);
      }
    }
  }
}
