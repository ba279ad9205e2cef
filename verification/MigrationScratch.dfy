/**
 The refs of the disposable repository of V18MigrationScratch.ts, from the fetch of the
 planned refs to the desired refs that finalization promotes.
 */
module MigrationScratch {
  import opened Wrappers
  import opened RefStore
  import opened MigrationPlan
  import opened Promotion

  /** The outcomes of the steps whose work is not about refs. */
  datatype ScratchWork = ScratchWork(
    /** The head each rewritten writer chain ended at; a missing writer failed. */
    heads: Refs,
    marker: Option<Oid>,
    /** The migrated checkpoint, if the retained one could be converted. */
    seed: Option<Oid>,
    seedFails: bool,
    /** What materializing and publishing a checkpoint from scratch wrote; None is a failure. */
    published: Option<Refs>,
    verified: bool)

  /** The classes the planner gave the planned refs, as far as the scratch steps need them. */
  ghost predicate ClassedPlan(plan: Plan) {
    && plan.markerRef == MarkerRef(plan.graph)
    && (forall n | n in plan.derivedRefs :: Retired(plan.graph, n))
    && (forall n | n in plan.preservedRefs :: Classify(plan.graph, n) == PreservedRef)
    && (forall k | 0 <= k < |plan.writers| :: Classify(plan.graph, plan.writers[k].refName) == WriterRef)
    && (forall i, j | 0 <= i < j < |plan.writers| :: plan.writers[i].refName != plan.writers[j].refName)
  }

  lemma PlansAreClassed(graph: string, inv: Inventory, passphrase: bool, plan: Plan)
    requires Inventoried(graph, inv, passphrase, plan)
    requires forall a, b | 0 <= a < b < |inv.listing| :: inv.listing[a] != inv.listing[b]
    ensures ClassedPlan(plan)
  {
    hide Classify;
    WriterRefsSay(graph, inv.listing);
    var refs := WriterRefs(graph, inv.listing);
    assert forall k | 0 <= k < |plan.writers| :: plan.writers[k].refName == refs[k] && refs[k] in refs;
  }

  /** The marker is none of the planned refs. */
  lemma MarkerIsUnclassed(graph: string)
    ensures Classify(graph, MarkerRef(graph)) == UnknownRef
  {
    hide Below, CheckpointRef, CoverageRef, StateCacheRef;
    MarkerNotBelow(graph, "writers/");
    MarkerNotBelow(graph, "checkpoints/");
    MarkerNotBelow(graph, "coverage/");
    MarkerNotBelow(graph, "state-cache");
    MarkerNotBelow(graph, "audit/");
    MarkerNotBelow(graph, "intents/");
    MarkerNotBelow(graph, "strand-braids/");
    MarkerNotBelow(graph, "strand-overlays/");
    MarkerNotBelow(graph, "strands/");
    MarkerNotBelow(graph, "trust/");
    MarkerNotBelow(graph, "recovery/");
    DerivedAreas(graph, MarkerRef(graph));
  }

  lemma MarkerNotBelow(graph: string, area: string)
    requires |area| > 1 && (area[0] != 's' || area[1] != 'u')
    ensures !Below(graph, area, MarkerRef(graph))
  {
    PrefixUnder(GraphPrefix(graph), area, "substrate-version");
  }

  lemma PrefixUnder(p: string, a: string, b: string)
    ensures p + a <= p + b <==> a <= b
  {
    if p + a <= p + b {
      assert forall i | 0 <= i < |a| :: a[i] == (p + a)[|p| + i] == (p + b)[|p| + i] == b[i];
    }
  }

  predicate IsWriterRef(plan: Plan, n: RefName) {
    NamesAWriter(plan, n)
  }

  predicate IsPlanned(plan: Plan, n: RefName) {
    IsWriterRef(plan, n) || n in plan.derivedRefs || n in plan.preservedRefs
  }

  /** `fetchPlanRefs`: every planned ref, at the value it has in the source now. */
  method FetchPlanRefs(plan: Plan, source: Refs) returns (fetched: Option<Refs>)
    ensures fetched.Some? <==> forall n | IsPlanned(plan, n) :: n in source
    ensures fetched.Some? ==>
              forall n :: At(fetched.value, n) == if IsPlanned(plan, n) then At(source, n) else None
  {
    var names := plan.derivedRefs.Keys + plan.preservedRefs.Keys;
    for k := 0 to |plan.writers|
      invariant forall n ::
                  n in names <==> || n in plan.derivedRefs || n in plan.preservedRefs
                                  || exists j | 0 <= j < k :: plan.writers[j].refName == n
    {
      names := names + {plan.writers[k].refName};
    }
    assert forall n :: n in names <==> IsPlanned(plan, n);
    if names <= source.Keys {
      fetched := Some(map n | n in names :: source[n]);
    } else {
      fetched := None;
    }
  }

  /** The last step of each writer's rewrite: move its ref from the old head to the new one. */
  method MoveWriters(scratch: Repository, plan: Plan, heads: Refs) returns (ok: bool)
    requires forall i, j | 0 <= i < j < |plan.writers| :: plan.writers[i].refName != plan.writers[j].refName
    modifies scratch
    ensures forall n | !IsWriterRef(plan, n) :: At(scratch.refs, n) == At(old(scratch.refs), n)
    ensures ok ==> forall n | IsWriterRef(plan, n) :: n in heads && At(scratch.refs, n) == Some(heads[n])
    ensures ok <==> forall n | IsWriterRef(plan, n) :: n in heads && n in old(scratch.refs)
  {
    for k := 0 to |plan.writers|
      invariant forall n ::
                  (forall j | 0 <= j < k :: plan.writers[j].refName != n) ==>
                    At(scratch.refs, n) == At(old(scratch.refs), n)
      invariant forall j | 0 <= j < k ::
                  && plan.writers[j].refName in heads && plan.writers[j].refName in old(scratch.refs)
                  && At(scratch.refs, plan.writers[j].refName) == Some(heads[plan.writers[j].refName])
    {
      var name := plan.writers[k].refName;
      var oldHead := scratch.Read(name);
      if oldHead.None? || name !in heads {
        assert IsWriterRef(plan, name);
        return false;
      }
      var moved := scratch.MoveRef(name, heads[name], oldHead.value);
    }
    ok := true;
  }

  /** `deleteDerivedRefs`: each retired ref but the seeded one, at its planned value. */
  method DeleteDerivedRefs(scratch: Repository, plan: Plan, preserved: Option<RefName>) returns (ok: bool)
    modifies scratch
    ensures forall n | n !in plan.derivedRefs || preserved == Some(n) :: At(scratch.refs, n) == At(old(scratch.refs), n)
    ensures ok ==> forall n | n in plan.derivedRefs && preserved != Some(n) :: n !in scratch.refs
    ensures ok <==> forall n | n in plan.derivedRefs && preserved != Some(n) ::
              At(old(scratch.refs), n) == Some(plan.derivedRefs[n])
  {
    var todo := plan.derivedRefs.Keys;
    while todo != {}
      invariant todo <= plan.derivedRefs.Keys
      invariant forall n | n !in plan.derivedRefs || n in todo || preserved == Some(n) ::
                  At(scratch.refs, n) == At(old(scratch.refs), n)
      invariant forall n | n in plan.derivedRefs && n !in todo && preserved != Some(n) ::
                  n !in scratch.refs && At(old(scratch.refs), n) == Some(plan.derivedRefs[n])
      decreases |todo|
    {
      var name :| name in todo;
      if preserved != Some(name) {
        var deleted := scratch.DeleteRef(name, plan.derivedRefs[name], false);
        if !deleted {
          return false;
        }
      }
      todo := todo - {name};
    }
    ok := true;
  }

  /** What a prepared migration wants one of the graph's refs to be, from its fetched value. */
  function DesiredAt(plan: Plan, fetched: Option<Oid>, work: ScratchWork, n: RefName): Option<Oid>
    requires work.seed.None? ==> work.published.Some?
  {
    if IsWriterRef(plan, n) then At(work.heads, n)
    else if n in plan.preservedRefs then fetched
    else if n == plan.markerRef then work.marker
    else if work.seed.Some? then (if n == CheckpointRef(plan.graph) then work.seed else None)
    else At(work.published.value, n)
  }

  ghost predicate IsDesired(plan: Plan, source: Refs, work: ScratchWork, desired: Refs)
    requires work.seed.None? ==> work.published.Some?
  {
    forall n :: At(desired, n) == DesiredAt(plan, At(source, n), work, n)
  }

  /**
   What the scratch repository holds in the end, ref by ref: preserved refs as they were
   fetched, writers at their rewritten heads, the marker, the seeded checkpoint as the only
   derived ref or else exactly what was published, and nothing else.
   */
  ghost predicate Prepared(plan: Plan, fetched: Refs, work: ScratchWork, final: Refs) {
    && (forall n | n in plan.preservedRefs :: At(final, n) == At(fetched, n))
    && (forall w | w in plan.writers :: At(final, w.refName) == At(work.heads, w.refName))
    && At(final, "refs/warp/" + plan.graph + "/substrate-version") == work.marker
    && var head := "refs/warp/" + plan.graph + "/checkpoints/head";
       forall n | n !in plan.preservedRefs && n != "refs/warp/" + plan.graph + "/substrate-version"
                  && forall w | w in plan.writers :: n != w.refName ::
         match work.seed
         case Some(seed) => At(final, n) == if n == head then Some(seed) else None
         case None => work.published.Some? && At(final, n) == At(work.published.value, n)
  }

  lemma DesiredIsPrepared(plan: Plan, fetched: Refs, work: ScratchWork, final: Refs)
    requires ClassedPlan(plan)
    requires work.seed.None? ==> work.published.Some?
    requires IsDesired(plan, fetched, work, final)
    ensures Prepared(plan, fetched, work, final)
  {
    hide Classify;
    ClassesAreApart(plan);
    NamesSpelled(plan.graph);
    forall w | w in plan.writers
      ensures IsWriterRef(plan, w.refName)
    {
      var k :| 0 <= k < |plan.writers| && plan.writers[k] == w;
      assert plan.writers[k].refName == w.refName;
    }
    forall n | IsWriterRef(plan, n)
      ensures exists w :: w in plan.writers && n == w.refName
    {
      var k :| 0 <= k < |plan.writers| && plan.writers[k].refName == n;
      assert plan.writers[k] in plan.writers;
    }
  }

  /** Everything the scratch work needs to have gone right. */
  ghost predicate Prepares(plan: Plan, source: Refs, work: ScratchWork) {
    && (forall n | IsPlanned(plan, n) :: n in source)
    && (forall n | IsWriterRef(plan, n) :: n in work.heads)
    && work.marker.Some? && !work.seedFails && work.verified
    && (work.seed.Some? ==> CheckpointRef(plan.graph) in plan.derivedRefs)
    && (forall n | n in plan.derivedRefs :: At(source, n) == Some(plan.derivedRefs[n]))
    && (work.seed.None? ==> work.published.Some?)
  }

  /** Writer, derived, preserved and marker refs are four different things. */
  lemma ClassesAreApart(plan: Plan)
    requires ClassedPlan(plan)
    ensures !IsPlanned(plan, plan.markerRef) && Classify(plan.graph, plan.markerRef) == UnknownRef
    ensures forall n | IsWriterRef(plan, n) ::
              Classify(plan.graph, n) == WriterRef && n !in plan.derivedRefs && n !in plan.preservedRefs
    ensures forall n | n in plan.derivedRefs :: n !in plan.preservedRefs
    ensures Classify(plan.graph, CheckpointRef(plan.graph)) == DerivedRef
  {
    hide Classify;
    MarkerIsUnclassed(plan.graph);
    ClassifyIgnoresOrder(plan.graph, CheckpointRef(plan.graph));
  }

  /** A classified ref lies in the graph, and so does the marker. */
  lemma ClassifiedInGraph(graph: string, name: RefName)
    requires Classify(graph, name) != UnknownRef || name == MarkerRef(graph)
    ensures InGraph(graph, name)
  {
    DerivedAreas(graph, name);
  }

  lemma DesiredInGraph(plan: Plan, source: Refs, work: ScratchWork, desired: Refs)
    requires ClassedPlan(plan)
    requires work.seed.None? ==> work.published.Some?
    requires work.published.Some? ==> forall n | n in work.published.value :: Retired(plan.graph, n)
    requires IsDesired(plan, source, work, desired)
    ensures forall n | n in desired :: InGraph(plan.graph, n) && !Below(plan.graph, "recovery/", n)
  {
    hide Classify, MarkerRef, CheckpointRef, InGraph, Below;
    ClassesAreApart(plan);
    forall n | n in desired
      ensures InGraph(plan.graph, n) && !Below(plan.graph, "recovery/", n)
    {
      assert At(desired, n).Some?;
      ClassifiedInGraph(plan.graph, n);
      ClassifyIgnoresOrder(plan.graph, n);
    }
  }

  /**
   Builds the migrated refs in a private repository. Writers stand at their rewritten
   heads, preserved refs as fetched, the marker is set, and no derived ref remains but the
   checkpoint.
   */
  method PrepareScratch(plan: Plan, source: Refs, work: ScratchWork) returns (desired: Option<Refs>)
    requires ClassedPlan(plan)
    requires work.published.Some? ==> forall n | n in work.published.value :: Retired(plan.graph, n)
    ensures desired.Some? <==> Prepares(plan, source, work)
    ensures desired.Some? ==> IsDesired(plan, source, work, desired.value) && Prepared(plan, source, work, desired.value)
    ensures desired.Some? ==>
              forall n | n in desired.value :: InGraph(plan.graph, n) && !Below(plan.graph, "recovery/", n)
  {
    hide Classify, MarkerRef, CheckpointRef, IsDesired, InGraph, Below, Retired, IsWriterRef, Prepared;
    ClassesAreApart(plan);
    var fetched := FetchPlanRefs(plan, source);
    if fetched.None? {
      return None;
    }
    assert forall n :: n in fetched.value <==> At(fetched.value, n).Some?;
    var final := BuildScratch(plan, work, fetched.value);
    if final.None? || !work.verified {
      return None;
    }
    FinalRefs(plan, source, work, fetched.value, final.value);
    DesiredInGraph(plan, source, work, final.value);
    DesiredIsPrepared(plan, source, work, final.value);
    desired := final;
  }

  /** What the scratch steps make of one fetched ref. */
  function BuiltAt(plan: Plan, work: ScratchWork, fetched: Refs, n: RefName): Option<Oid>
    requires work.seed.None? ==> work.published.Some?
  {
    if work.seed.None? && n in work.published.value then Some(work.published.value[n])
    else if work.seed.Some? && n == CheckpointRef(plan.graph) then work.seed
    else if n in plan.derivedRefs then None
    else if n == plan.markerRef then work.marker
    else if IsWriterRef(plan, n) then At(work.heads, n)
    else At(fetched, n)
  }

  /** From the fetched refs to the final ones: writers, marker, checkpoint, derived refs. */
  method BuildScratch(plan: Plan, work: ScratchWork, fetched: Refs) returns (final: Option<Refs>)
    requires ClassedPlan(plan)
    ensures final.Some? <==>
              && (forall n | IsWriterRef(plan, n) :: n in work.heads && n in fetched)
              && work.marker.Some? && !work.seedFails
              && (work.seed.Some? ==> CheckpointRef(plan.graph) in plan.derivedRefs)
              && (work.seed.None? ==> work.published.Some?)
              && (forall n | n in plan.derivedRefs :: At(fetched, n) == Some(plan.derivedRefs[n]))
    ensures final.Some? ==> forall n :: At(final.value, n) == BuiltAt(plan, work, fetched, n)
    ensures final.Some? ==> Built(plan, work, fetched, final.value)
  {
    hide Classify, MarkerRef, CheckpointRef, IsWriterRef, Built;
    ClassesAreApart(plan);
    var scratch := new Repository(fetched);
    var moved := MoveWriters(scratch, plan, work.heads);
    if !moved || work.marker.None? {
      return None;
    }
    ghost var rewritten := scratch.refs;
    scratch.Fetch(plan.markerRef, work.marker.value);
    var ok := SettleCheckpoint(scratch, plan, work);
    if !ok {
      return None;
    }
    BuiltIs(plan, work, fetched, scratch.refs);
    final := Some(scratch.refs);
  }

  /** What the scratch steps leave, ref by ref, wherever publishing a checkpoint wrote nothing. */
  ghost predicate Built(plan: Plan, work: ScratchWork, fetched: Refs, final: Refs) {
    var head := "refs/warp/" + plan.graph + "/checkpoints/head";
    && (work.seed.None? ==>
          work.published.Some? && forall n | n in work.published.value :: At(final, n) == At(work.published.value, n))
    && forall n | work.seed.Some? || n !in work.published.value ::
         && (n in plan.preservedRefs ==> At(final, n) == At(fetched, n))
         && (forall w | w in plan.writers && n == w.refName :: At(final, n) == At(work.heads, n))
         && (n == "refs/warp/" + plan.graph + "/substrate-version" ==> At(final, n) == work.marker)
         && (work.seed.Some? && n == head ==> At(final, n) == work.seed)
         && (n in plan.derivedRefs && !(work.seed.Some? && n == head) ==> n !in final)
  }

  lemma BuiltIs(plan: Plan, work: ScratchWork, fetched: Refs, final: Refs)
    requires ClassedPlan(plan)
    requires work.seed.None? ==> work.published.Some?
    requires work.seed.Some? ==> CheckpointRef(plan.graph) in plan.derivedRefs
    requires forall n :: At(final, n) == BuiltAt(plan, work, fetched, n)
    ensures Built(plan, work, fetched, final)
  {
    hide Classify;
    ClassesAreApart(plan);
    NamesSpelled(plan.graph);
    forall w | w in plan.writers
      ensures IsWriterRef(plan, w.refName)
    {
      var k :| 0 <= k < |plan.writers| && plan.writers[k] == w;
      assert plan.writers[k].refName == w.refName;
    }
    if work.seed.None? {
      forall n | n in work.published.value
        ensures At(final, n) == At(work.published.value, n)
      {
        assert At(final, n) == BuiltAt(plan, work, fetched, n);
      }
    }
    forall n | work.seed.Some? || n !in work.published.value
      ensures n in plan.preservedRefs ==> At(final, n) == At(fetched, n)
      ensures forall w | w in plan.writers && n == w.refName :: At(final, n) == At(work.heads, n)
      ensures n == MarkerRef(plan.graph) ==> At(final, n) == work.marker
      ensures work.seed.Some? && n == CheckpointRef(plan.graph) ==> At(final, n) == work.seed
      ensures n in plan.derivedRefs && !(work.seed.Some? && n == CheckpointRef(plan.graph)) ==> n !in final
    {
      assert At(final, n) == BuiltAt(plan, work, fetched, n);
      assert n !in final <==> At(final, n) == None;
    }
  }

  /** The checkpoint is converted, or every derived ref goes and a new one is published. */
  method SettleCheckpoint(scratch: Repository, plan: Plan, work: ScratchWork) returns (ok: bool)
    requires ClassedPlan(plan)
    modifies scratch
    ensures ok <==>
              && !work.seedFails
              && (work.seed.Some? ==> CheckpointRef(plan.graph) in plan.derivedRefs)
              && (work.seed.None? ==> work.published.Some?)
              && (forall n | n in plan.derivedRefs :: At(old(scratch.refs), n) == Some(plan.derivedRefs[n]))
    ensures ok ==>
              forall n :: At(scratch.refs, n)
                          == if work.seed.None? && n in work.published.value then Some(work.published.value[n])
                             else if work.seed.Some? && n == CheckpointRef(plan.graph) then work.seed
                             else if n in plan.derivedRefs then None
                             else At(old(scratch.refs), n)
  {
    hide Classify, MarkerRef, CheckpointRef;
    var checkpoint := CheckpointRef(plan.graph);
    if work.seedFails || (work.seed.Some? && checkpoint !in plan.derivedRefs) {
      return false;
    }
    if work.seed.Some? {
      var seeded := scratch.MoveRef(checkpoint, work.seed.value, plan.derivedRefs[checkpoint]);
      if !seeded {
        return false;
      }
    }
    var retired := DeleteDerivedRefs(scratch, plan, if work.seed.Some? then Some(checkpoint) else None);
    if !retired || (work.seed.None? && work.published.None?) {
      return false;
    }
    if work.seed.None? {
      scratch.refs := scratch.refs + work.published.value;
    }
    ok := true;
  }

  lemma FinalRefs(plan: Plan, source: Refs, work: ScratchWork, fetched: Refs, final: Refs)
    requires ClassedPlan(plan)
    requires work.marker.Some? && (work.seed.None? ==> work.published.Some?)
    requires work.seed.Some? ==> CheckpointRef(plan.graph) in plan.derivedRefs
    requires work.published.Some? ==> forall n | n in work.published.value :: Retired(plan.graph, n)
    requires forall n :: At(fetched, n) == if IsPlanned(plan, n) then At(source, n) else None
    requires forall n | IsWriterRef(plan, n) :: n in work.heads
    requires forall n :: At(final, n) == BuiltAt(plan, work, fetched, n)
    ensures IsDesired(plan, source, work, final)
  {
    hide Classify, MarkerRef, CheckpointRef;
    ClassesAreApart(plan);
  }
}
