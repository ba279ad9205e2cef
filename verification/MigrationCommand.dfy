/**
 V18MigrationCommand.ts: plan, prepare in a disposable repository, plan again, finalize,
 verify, roll back on failure, and always clean up.

 Foreign processes may write between any two steps; `keep` says which names they leave
 alone, and the contracts speak of those names.
 */
module MigrationCommand {
  import opened Wrappers
  import opened RefStore
  import opened PatchCommits
  import opened WriterChain
  import opened MigrationPlan
  import opened Promotion
  import opened Finalizer
  import opened MigrationScratch
  import opened ScratchRewrite
  import W = WriterChainRewriter

  /** What the object database answers; objects are immutable. */
  datatype Objects = Objects(
    commits: set<Oid>,
    /** Blobs that hold the current substrate marker. */
    markers: set<Oid>,
    /** The commits a commit descends from, root first and itself last. */
    ancestry: Oid -> seq<Sha>,
    read: Reader,
    /** The payload roots a state cache names, if they can be read. */
    payloads: Oid -> Option<set<Oid>>,
    /** The order `for-each-ref` lists names in. */
    ordered: set<RefName> -> seq<RefName>)

  datatype Mode = PromoteRefs | Rehearse

  /** Steps that fail for reasons of their own, throwing progress reporters included. */
  datatype RunFaults = RunFaults(
    currentCheck: bool, planning: bool, replanning: bool, announcement: bool, finalizing: Faults,
    verification: bool, rollback: bool, cleanup: bool)

  datatype Stage = Planning | CurrentCheck | Preparing | Replanning | UnchangedCheck | Announcing

  /** A report or the error that escapes; `masked` is the outcome a failed cleanup hid. */
  datatype Outcome =
    | AlreadyCurrent
    | NothingThere
    | VerifiedDryRun
    | Migrated(plan: Plan, finalization: Finalization)
    | Stopped(stage: Stage)
    | FinalizationError(plan: Plan, result: FinalizeResult)
    | RolledBackError(plan: Plan, finalization: Finalization)
    | RollbackStuck(plan: Plan, finalization: Finalization)
    | CleanupError(masked: Outcome)

  // --------------------------------------------------------------- inventory

  /** Every set of names is listed completely and once each. */
  ghost predicate ListsAll(objects: Objects) {
    forall s: set<RefName> ::
      && (forall n :: n in objects.ordered(s) <==> n in s)
      && forall a, b | 0 <= a < b < |objects.ordered(s)| :: objects.ordered(s)[a] != objects.ordered(s)[b]
  }

  function GraphNames(graph: string, refs: Refs): set<RefName> {
    set n | n in refs && InGraph(graph, n)
  }

  /** The inventory of a store that stands still. */
  function InventoryOf(graph: string, objects: Objects, refs: Refs): Inventory {
    Inventory(
      objects.ordered(GraphNames(graph, refs)),
      map n | n in GraphNames(graph, refs) :: refs[n],
      if MarkerRef(graph) in refs then Some(refs[MarkerRef(graph)] in objects.markers) else None,
      objects.commits, map n | n in GraphNames(graph, refs) :: objects.ancestry(refs[n]), objects.read)
  }

  /** Lists the graph's refs and reads each of them; foreign writers run in between. */
  method TakeInventory(repo: Repository, graph: string, objects: Objects, ghost keep: RefName -> bool)
    returns (inv: Inventory)
    requires ListsAll(objects)
    modifies repo
    ensures forall n | keep(n) :: At(repo.refs, n) == At(old(repo.refs), n)
    ensures forall a, b | 0 <= a < b < |inv.listing| :: inv.listing[a] != inv.listing[b]
    ensures forall n | n in inv.listing :: InGraph(graph, n)
    ensures forall n | keep(n) && InGraph(graph, n) :: n in inv.listing <==> n in old(repo.refs)
    ensures forall n | keep(n) && n in inv.listing ::
              At(inv.seen, n) == At(old(repo.refs), n) && RevsAt(inv.revs, n) == Listed(objects, At(old(repo.refs), n))
    ensures inv.read == objects.read
    ensures (forall n :: keep(n)) ==> inv == InventoryOf(graph, objects, old(repo.refs))
  {
    hide InGraph, MarkerRef, Listed;
    repo.Foreign(keep);
    var listing := objects.ordered(GraphNames(graph, repo.refs));
    ghost var listed := repo.refs;
    assert forall n | keep(n) :: n in listed <==> At(listed, n) == At(old(repo.refs), n) && n in old(repo.refs);
    repo.Foreign(keep);
    var marker := repo.Read(MarkerRef(graph));
    var seen: Refs, revs: map<RefName, seq<Sha>> := map[], map[];
    for k := 0 to |listing|
      invariant forall n | keep(n) :: At(repo.refs, n) == At(old(repo.refs), n)
      invariant forall n | n !in listing :: At(seen, n) == None && RevsAt(revs, n) == None
      invariant forall n | keep(n) && n in listing[..k] ::
                  At(seen, n) == At(old(repo.refs), n) && RevsAt(revs, n) == Listed(objects, At(old(repo.refs), n))
    {
      assert listing[..k + 1] == listing[..k] + [listing[k]];
      seen, revs := ReadListed(repo, objects, listing[k], seen, revs, keep);
    }
    assert listing[..|listing|] == listing;
    inv := Inventory(
      listing, seen, if marker.Some? then Some(marker.value in objects.markers) else None,
      objects.commits, revs, objects.read);
    if forall n :: keep(n) {
      KeptStore(old(repo.refs), listed, keep);
      StillInventory(graph, objects, listed, listing, seen, revs);
    }
  }

  /** Reads one listed ref, then lists the commits it stands at a moment later. */
  method ReadListed(
    repo: Repository, objects: Objects, name: RefName, seen: Refs, revs: map<RefName, seq<Sha>>,
    ghost keep: RefName -> bool)
    returns (seenMore: Refs, revsMore: map<RefName, seq<Sha>>)
    modifies repo
    ensures forall n | keep(n) :: At(repo.refs, n) == At(old(repo.refs), n)
    ensures forall n | n != name :: At(seenMore, n) == At(seen, n) && RevsAt(revsMore, n) == RevsAt(revs, n)
    ensures keep(name) ==>
              && At(seenMore, name) == At(old(repo.refs), name)
              && RevsAt(revsMore, name) == Listed(objects, At(old(repo.refs), name))
  {
    repo.Foreign(keep);
    var value := repo.Read(name);
    seenMore := if value.Some? then seen[name := value.value] else seen - {name};
    repo.Foreign(keep);
    var head := repo.Read(name);
    revsMore := if head.Some? then revs[name := objects.ancestry(head.value)] else revs - {name};
  }

  function RevsAt(revs: map<RefName, seq<Sha>>, n: RefName): Option<seq<Sha>> {
    if n in revs then Some(revs[n]) else None
  }

  /** The commits listed for a ref that has this value. */
  function Listed(objects: Objects, value: Option<Oid>): Option<seq<Sha>> {
    match value
    case None => None
    case Some(oid) => Some(objects.ancestry(oid))
  }

  lemma StillInventory(
    graph: string, objects: Objects, refs: Refs, listing: seq<RefName>, seen: Refs, revs: map<RefName, seq<Sha>>)
    requires forall n :: n in listing <==> n in GraphNames(graph, refs)
    requires forall n | n !in listing :: At(seen, n) == None && RevsAt(revs, n) == None
    requires forall n | n in listing :: At(seen, n) == At(refs, n) && RevsAt(revs, n) == Listed(objects, At(refs, n))
    ensures seen == map n | n in GraphNames(graph, refs) :: refs[n]
    ensures revs == map n | n in GraphNames(graph, refs) :: objects.ancestry(refs[n])
  {
    hide InGraph;
    forall n
      ensures n in seen <==> n in GraphNames(graph, refs)
      ensures n in seen ==> seen[n] == refs[n]
    {
      assert n in seen <==> At(seen, n).Some?;
    }
    forall n
      ensures n in revs <==> n in GraphNames(graph, refs)
      ensures n in revs ==> revs[n] == objects.ancestry(refs[n])
    {
      assert n in revs <==> RevsAt(revs, n).Some?;
    }
  }

  /** A store that stands still can be planned and needs the migration. */
  ghost predicate NeedsMigration(graph: string, objects: Objects, refs: Refs, passphrase: bool) {
    var inv := InventoryOf(graph, objects, refs);
    && ValidGraphName(graph) && MarkerRef(graph) !in refs && GraphNames(graph, refs) != {}
    && (forall n | n in inv.listing :: Filable(graph, inv, n))
    && WriterRefs(graph, inv.listing) != []
    && forall n | n in WriterRefs(graph, inv.listing) :: Plannable(graph, inv, passphrase, n)
  }

  predicate IsCurrent(graph: string, objects: Objects, refs: Refs) {
    ValidGraphName(graph) && MarkerRef(graph) in refs && refs[MarkerRef(graph)] in objects.markers
  }

  predicate IsEmpty(graph: string, refs: Refs) {
    ValidGraphName(graph) && MarkerRef(graph) !in refs && GraphNames(graph, refs) == {}
  }

  /** An inventory determines its plan. */
  lemma PlanIsDetermined(graph: string, inv: Inventory, passphrase: bool, a: Plan, b: Plan)
    requires Inventoried(graph, inv, passphrase, a) && Inventoried(graph, inv, passphrase, b)
    ensures a == b
  {
    hide Classify, MarkerRef;
    SameEverywhere(a.derivedRefs, b.derivedRefs);
    SameEverywhere(a.preservedRefs, b.preservedRefs);
    assert a.writers == b.writers;
  }

  /** `planV18ToV19Migration` */
  method PlanNow(
    repo: Repository, graph: string, objects: Objects, passphrase: bool, fault: bool, ghost keep: RefName -> bool)
    returns (plan: Option<Plan>, inv: Inventory)
    requires ListsAll(objects)
    modifies repo
    ensures forall n | keep(n) :: At(repo.refs, n) == At(old(repo.refs), n)
    ensures forall a, b | 0 <= a < b < |inv.listing| :: inv.listing[a] != inv.listing[b]
    ensures forall n | n in inv.listing :: InGraph(graph, n)
    ensures forall n | keep(n) && InGraph(graph, n) :: n in inv.listing <==> n in old(repo.refs)
    ensures forall n | keep(n) && n in inv.listing ::
              At(inv.seen, n) == At(old(repo.refs), n) && RevsAt(inv.revs, n) == Listed(objects, At(old(repo.refs), n))
    ensures inv.read == objects.read
    ensures (forall n :: keep(n)) ==> inv == InventoryOf(graph, objects, old(repo.refs))
    ensures plan.Some? ==> ValidGraphName(graph)
    ensures plan.Some? && plan.value.status == MigrationRequired ==> Inventoried(graph, inv, passphrase, plan.value)
    ensures (forall n :: keep(n)) ==>
              (plan.Some? && plan.value.status == MigrationRequired
               <==> !fault && NeedsMigration(graph, objects, old(repo.refs), passphrase))
    ensures (forall n :: keep(n)) ==>
              && (plan.Some? && plan.value.status == Current <==> !fault && IsCurrent(graph, objects, old(repo.refs)))
              && (plan.Some? && plan.value.status == Empty <==> !fault && IsEmpty(graph, old(repo.refs)))
  {
    hide InGraph, MarkerRef, Inventoried, Filable, Plannable, WriterRefs, ValidGraphName;
    inv := TakeInventory(repo, graph, objects, keep);
    var planned := PlanMigration(graph, inv, passphrase);
    plan := if planned.Success? && !fault then Some(planned.value) else None;
    if forall n :: keep(n) {
      assert inv.listing == [] <==> GraphNames(graph, old(repo.refs)) == {} by {
        if inv.listing != [] {
          assert inv.listing[0] in inv.listing;
        }
        if GraphNames(graph, old(repo.refs)) != {} {
          var n :| n in GraphNames(graph, old(repo.refs));
          assert n in inv.listing;
        }
      }
    }
  }

  // ------------------------------------------------------------ unchanged plan

  datatype WriterIdentity = WriterIdentity(head: Oid, refName: RefName)

  datatype PlanIdentity = PlanIdentity(derivedRefs: Refs, preservedRefs: Refs, writers: seq<WriterIdentity>)

  function IdentityOf(plan: Plan): PlanIdentity {
    PlanIdentity(plan.derivedRefs, plan.preservedRefs,
                 seq(|plan.writers|, k requires 0 <= k < |plan.writers| =>
                   WriterIdentity(plan.writers[k].head, plan.writers[k].refName)))
  }

  /** `requireUnchangedPlan` */
  predicate Unchanged(before: Plan, after: Plan) {
    after.status == MigrationRequired && IdentityOf(after) == IdentityOf(before)
  }

  /** Nothing has changed if the second plan requires the migration of the same refs at the same values. */
  lemma UnchangedExactly(before: Plan, after: Plan)
    ensures Unchanged(before, after)
       <==> && after.status == MigrationRequired
            && after.derivedRefs == before.derivedRefs && after.preservedRefs == before.preservedRefs
            && |after.writers| == |before.writers|
            && forall k | 0 <= k < |before.writers| ::
                 after.writers[k].refName == before.writers[k].refName && after.writers[k].head == before.writers[k].head
  {
    var a, b := IdentityOf(after).writers, IdentityOf(before).writers;
    if |after.writers| == |before.writers| {
      assert forall k | 0 <= k < |a| ::
          a[k] == b[k] <==> after.writers[k].refName == before.writers[k].refName
                            && after.writers[k].head == before.writers[k].head;
      if forall k | 0 <= k < |a| :: a[k] == b[k] {
        assert a == b;
      }
    }
  }

  lemma {:induction false} SameWritersSameHeads(a: seq<WriterPlan>, b: seq<WriterPlan>)
    requires |a| == |b| && forall k | 0 <= k < |a| :: a[k].head == b[k].head && a[k].refName == b[k].refName
    ensures WriterHeads(a) == WriterHeads(b)
  {
    if a != [] {
      SameWritersSameHeads(a[..|a| - 1], b[..|b| - 1]);
    }
  }

  /**
   Equal identities mean equal source refs. So when the second plan passes, the values the
   transaction expects are exactly those the second inventory saw.
   */
  lemma UnchangedPlansShareSources(
    graph: string, second: Inventory, passphrase: bool, before: Plan, after: Plan)
    requires Unchanged(before, after) && Inventoried(graph, second, passphrase, after)
    ensures SourceRefs(before) == SourceRefs(after)
    ensures forall n :: n in SourceRefs(before) <==> n in second.listing && Classify(graph, n) != RecoveryRef
    ensures forall n | n in SourceRefs(before) :: n in second.seen && SourceRefs(before)[n] == second.seen[n]
  {
    hide Classify;
    assert |IdentityOf(before).writers| == |IdentityOf(after).writers|;
    forall k | 0 <= k < |before.writers|
      ensures before.writers[k].head == after.writers[k].head && before.writers[k].refName == after.writers[k].refName
    {
      assert IdentityOf(before).writers[k] == IdentityOf(after).writers[k];
    }
    SameWritersSameHeads(before.writers, after.writers);
    SourceRefsAreTheInventory(graph, second, passphrase, after);
  }

  // ----------------------------------------------------------------- endings

  /** How far the refs got: not at all, archive only, or archive and promoted refs. */
  datatype Extent =
    | Untouched
    | ArchivedOnly(source: Refs, f: Finalization)
    | PromotedTo(source: Refs, f: Finalization)

  function ExtentOfResult(source: Refs, r: FinalizeResult): Extent {
    match r
    case Finalized(f) => PromotedTo(source, f)
    case RollbackIncomplete(f) => PromotedTo(source, f)
    case RolledBackAfter(f) => ArchivedOnly(source, f)
    case StepFailed(_) => Untouched
    case CleanupFailed(masked) => ExtentOfResult(source, masked)
  }

  /**
   Which endings leave what. Promoted refs stay behind a migration that succeeded, a rollback
   that could not complete, and a cleanup failure that masks one of these.
   */
  function ExtentOf(o: Outcome): Extent {
    match o
    case AlreadyCurrent => Untouched
    case NothingThere => Untouched
    case VerifiedDryRun => Untouched
    case Migrated(plan, f) => PromotedTo(SourceRefs(plan), f)
    case Stopped(_) => Untouched
    case FinalizationError(plan, r) => ExtentOfResult(SourceRefs(plan), r)
    case RolledBackError(plan, f) => ArchivedOnly(SourceRefs(plan), f)
    case RollbackStuck(plan, f) => PromotedTo(SourceRefs(plan), f)
    case CleanupError(masked) => ExtentOf(masked)
  }

  /** What an extent means for one name nobody else touched. */
  ghost predicate EndsAt(e: Extent, n: RefName, before: Option<Oid>, after: Option<Oid>) {
    match e
    case Untouched => after == before
    case ArchivedOnly(source, f) => ArchivedName(f, source, n, before, after)
    case PromotedTo(source, f) => PromotedName(f, source, n, before, after)
  }

  lemma LeavesAtExtent(r: FinalizeResult, source: Refs, n: RefName, before: Option<Oid>, after: Option<Oid>)
    ensures Leaves(r, source, n, before, after) <==> EndsAt(ExtentOfResult(source, r), n, before, after)
  {
  }

  predicate InSources(graph: string, n: RefName) {
    InGraph(graph, n) && !Below(graph, "recovery/", n)
  }

  /** What the migration makes of one graph ref: writers move, derived refs go, the rest stays. */
  function Wanted(graph: string, before: Option<Oid>, work: ScratchWork, n: RefName): Option<Oid>
    requires work.seed.None? ==> work.published.Some?
  {
    if Below(graph, "writers/", n) then (if before.Some? then At(work.heads, n) else None)
    else if IsPreservedName(graph, n) then before
    else if n == MarkerRef(graph) then work.marker
    else if work.seed.Some? then (if n == CheckpointRef(graph) then work.seed else None)
    else At(work.published.value, n)
  }

  /** The recovery refs are a full archive of the source refs. */
  ghost predicate ArchivesAll(graph: string, id: string, objects: Objects, source: Refs, recovery: Refs) {
    && (forall n | n in source :: InGraph(graph, n))
    && (exists payloads :: IsArchive(graph, RecoveryPrefix(graph, id), source, payloads, recovery))
    && var cache := "refs/warp/" + graph + "/state-cache";
       FullArchive(graph, "refs/warp/" + graph + "/recovery/v18-to-v19/" + id, source,
                   if cache in source then objects.payloads(source[cache]) else None, recovery)
  }

  /** The finalization of an extent accounts for the refs as they were before. */
  ghost predicate Backed(
    e: Extent, graph: string, id: string, objects: Objects, work: ScratchWork, before: Refs, keep: RefName -> bool)
  {
    e != Untouched ==>
      && (work.seed.None? ==> work.published.Some?)
      && (forall n | n in e.source || n in e.f.promotedRefs :: InSources(graph, n))
      && ArchivesAll(graph, id, objects, e.source, e.f.recoveryRefs)
      && (forall n | keep(n) && InSources(graph, n) ::
            && (n in before ==> n in e.source)
            && At(e.f.promotedRefs, n) == Wanted(graph, At(before, n), work, n))
  }

  /** Publishing a checkpoint writes derived refs only. */
  ghost predicate PublishesDerived(graph: string, work: ScratchWork) {
    work.published.Some? ==> forall n | n in work.published.value :: Retired(graph, n)
  }

  lemma PlannedNames(graph: string, inv: Inventory, passphrase: bool, plan: Plan, n: RefName)
    requires Inventoried(graph, inv, passphrase, plan)
    ensures IsWriterRef(plan, n) <==> n in inv.listing && Classify(graph, n) == WriterRef
    ensures n in plan.preservedRefs <==> n in inv.listing && Classify(graph, n) == PreservedRef
  {
    hide Classify;
    WriterRefsSay(graph, inv.listing);
    var refs := WriterRefs(graph, inv.listing);
    if n in refs {
      var k :| 0 <= k < |refs| && refs[k] == n;
      assert plan.writers[k].refName == n;
    }
  }

  lemma DesiredIsWanted(
    graph: string, inv: Inventory, passphrase: bool, plan: Plan, work: ScratchWork, before: Option<Oid>, n: RefName)
    requires Inventoried(graph, inv, passphrase, plan) && PublishesDerived(graph, work)
    requires work.seed.None? ==> work.published.Some?
    requires n in inv.listing <==> before.Some?
    ensures DesiredAt(plan, before, work, n) == Wanted(graph, before, work, n)
  {
    hide Classify, Below, IsPreservedName, MarkerRef, CheckpointRef, Inventoried;
    PlannedNames(graph, inv, passphrase, plan, n);
    ClassifyIgnoresOrder(graph, n);
    ClassifyIgnoresOrder(graph, MarkerRef(graph));
    ClassifyIgnoresOrder(graph, CheckpointRef(graph));
    MarkerIsUnclassed(graph);
    PlanNames(graph, inv, passphrase, plan);
  }

  lemma PlanNames(graph: string, inv: Inventory, passphrase: bool, plan: Plan)
    requires Inventoried(graph, inv, passphrase, plan)
    ensures plan.graph == graph && plan.markerRef == MarkerRef(graph)
    ensures plan.status == MigrationRequired
  {
  }

  /** A prepared migration accounts for the refs it will promote. */
  lemma PreparedIsBacked(
    graph: string, objects: Objects, inv: Inventory, passphrase: bool, plan: Plan, work: ScratchWork, before: Refs,
    fetched: Refs,
    keep: RefName -> bool, e: Extent, id: string)
    requires Inventoried(graph, inv, passphrase, plan) && PublishesDerived(graph, work)
    requires work.seed.None? ==> work.published.Some?
    requires forall n | n in inv.listing :: InGraph(graph, n)
    requires forall n | keep(n) && InGraph(graph, n) :: n in inv.listing <==> n in before
    requires forall n | keep(n) :: At(fetched, n) == At(before, n)
    requires e.Untouched? || e.source == SourceRefs(plan)
    requires !e.Untouched? ==> IsDesired(plan, fetched, work, e.f.promotedRefs)
    requires !e.Untouched? ==> forall n | n in e.f.promotedRefs :: InSources(graph, n)
    requires !e.Untouched? ==> forall n | n in e.source :: InSources(graph, n)
    requires !e.Untouched? ==> ArchivesAll(graph, id, objects, e.source, e.f.recoveryRefs)
    ensures Backed(e, graph, id, objects, work, before, keep)
  {
    hide Classify, InGraph, Below, Inventoried, SourceRefs, DesiredAt, Wanted, ArchivesAll, PublishesDerived;
    if !e.Untouched? {
      SourceRefsAreTheInventory(graph, inv, passphrase, plan);
      forall n | keep(n) && InSources(graph, n)
        ensures n in before ==> n in e.source
        ensures At(e.f.promotedRefs, n) == Wanted(graph, At(before, n), work, n)
      {
        ClassifyIgnoresOrder(graph, n);
        DesiredIsWanted(graph, inv, passphrase, plan, work, At(before, n), n);
        assert At(e.f.promotedRefs, n) == DesiredAt(plan, At(fetched, n), work, n);
      }
    }
  }

  /**
   What a run leaves at the names nobody else touched. Outside the archive, promoted refs
   are what was wanted of the old ones, and on every other ending nothing changed. Every ref
   that stood in the graph is in the archive as soon as there is one. An older archive keeps
   its refs, and so does every other graph.
   */
  ghost predicate Accounted(
    e: Extent, graph: string, id: string, work: ScratchWork, before: Refs, after: Refs, keep: RefName -> bool)
  {
    && (e.PromotedTo? ==> (work.seed.None? ==> work.published.Some?))
    && (forall n | keep(n) && InSources(graph, n) ::
          At(after, n) == if e.PromotedTo? then Wanted(graph, At(before, n), work, n) else At(before, n))
    && (!e.Untouched? ==>
          forall n | keep(n) && InSources(graph, n) && n in before ::
            var archived := ArchiveRef(graph, RecoveryPrefix(graph, id), n);
            keep(archived) ==> At(after, archived) == At(before, n))
    && (forall n | keep(n) && InGraph(graph, n) && !InSources(graph, n) && n in before :: At(after, n) == At(before, n))
    && (forall n | keep(n) && !InGraph(graph, n) && !IsImportName(id, n) :: At(after, n) == At(before, n))
  }

  lemma RunIsAccounted(
    e: Extent, graph: string, id: string, objects: Objects, work: ScratchWork, before: Refs, after: Refs,
    keep: RefName -> bool)
    requires Backed(e, graph, id, objects, work, before, keep)
    requires forall m | keep(m) && !IsImportName(id, m) :: EndsAt(e, m, At(before, m), At(after, m))
    ensures Accounted(e, graph, id, work, before, after, keep)
  {
    hide InGraph, Below, Wanted, ArchiveRef, RecoveryPrefix, IsImportName, FullArchive, ArchivesAll;
    forall n | keep(n) && InGraph(graph, n)
      ensures InSources(graph, n) ==>
                At(after, n) == if e.PromotedTo? then Wanted(graph, At(before, n), work, n) else At(before, n)
      ensures !InSources(graph, n) && n in before ==> At(after, n) == At(before, n)
    {
      ImportNameIsNotInGraph(graph, id, n);
      ArchiveIsApart(e, graph, id, objects, n);
      assert EndsAt(e, n, At(before, n), At(after, n));
    }
    forall n | keep(n) && !InGraph(graph, n) && !IsImportName(id, n)
      ensures At(after, n) == At(before, n)
    {
      ArchiveIsApart(e, graph, id, objects, n);
      assert EndsAt(e, n, At(before, n), At(after, n));
    }
    if !e.Untouched? {
      forall n | keep(n) && InSources(graph, n) && n in before
        ensures keep(ArchiveRef(graph, RecoveryPrefix(graph, id), n)) ==>
                  At(after, ArchiveRef(graph, RecoveryPrefix(graph, id), n)) == At(before, n)
      {
        SourceIsArchived(e, graph, id, objects, n);
        ImportNameIsNotInGraph(graph, id, n);
        assert EndsAt(e, n, At(before, n), At(after, n));
      }
    }
  }

  /** Archive names lie below recovery, away from the sources. */
  lemma ArchiveIsApart(e: Extent, graph: string, id: string, objects: Objects, n: RefName)
    requires !e.Untouched? ==> ArchivesAll(graph, id, objects, e.source, e.f.recoveryRefs)
    ensures !e.Untouched? && n in e.f.recoveryRefs ==> InGraph(graph, n) && Below(graph, "recovery/", n)
  {
    hide InGraph, Below, RecoveryPrefix, IsArchive;
    if !e.Untouched? {
      var payloads :| IsArchive(graph, RecoveryPrefix(graph, id), e.source, payloads, e.f.recoveryRefs);
      ArchiveInGraph(graph, id, e.source, payloads, e.f.recoveryRefs);
    }
  }

  lemma SourceIsArchived(e: Extent, graph: string, id: string, objects: Objects, n: RefName)
    requires !e.Untouched? && ArchivesAll(graph, id, objects, e.source, e.f.recoveryRefs) && InGraph(graph, n)
    ensures n in e.source ==>
              var archived := ArchiveRef(graph, RecoveryPrefix(graph, id), n);
              archived in e.f.recoveryRefs && e.f.recoveryRefs[archived] == e.source[n] && !IsImportName(id, archived)
  {
    hide InGraph, Below, RecoveryPrefix, ArchiveRef, IsImportName;
    if n in e.source {
      var archived := ArchiveRef(graph, RecoveryPrefix(graph, id), n);
      var payloads :| IsArchive(graph, RecoveryPrefix(graph, id), e.source, payloads, e.f.recoveryRefs);
      ArchiveInGraph(graph, id, e.source, payloads, e.f.recoveryRefs);
      ImportNameIsNotInGraph(graph, id, archived);
    }
  }

  // --------------------------------------------------- what is left, name by name

  /** The value of one ref of a migrated graph. */
  ghost predicate MigratedName(
    graph: string, work: ScratchWork, n: RefName, before: Option<Oid>, after: Option<Oid>)
  {
    && (Retained(graph, n) ==> after == before)
    && (Lies(graph, "writers/", n) ==> after == if before.Some? then At(work.heads, n) else None)
    && (n == "refs/warp/" + graph + "/substrate-version" ==> after == work.marker)
    && (work.seed.Some? && Rebuilt(graph, n) ==>
          after == if n == "refs/warp/" + graph + "/checkpoints/head" then work.seed else None)
    && (work.seed.None? && Rebuilt(graph, n) ==> work.published.Some? && after == At(work.published.value, n))
    && (Unfiled(graph, n) ==> after == None)
  }

  /** A name in the graph that is none of the others. */
  ghost predicate Unfiled(graph: string, n: RefName) {
    && Lies(graph, "", n) && !Lies(graph, "recovery/", n) && !Retained(graph, n) && !Lies(graph, "writers/", n)
    && n != "refs/warp/" + graph + "/substrate-version" && !Rebuilt(graph, n)
  }

  /** The graph is migrated at every kept name outside its archive. */
  ghost predicate GraphMigrated(graph: string, work: ScratchWork, before: Refs, after: Refs, keep: RefName -> bool) {
    forall n | keep(n) :: MigratedName(graph, work, n, At(before, n), At(after, n))
  }

  ghost predicate GraphUnchanged(graph: string, before: Refs, after: Refs, keep: RefName -> bool) {
    forall n | keep(n) && Lies(graph, "", n) && !Lies(graph, "recovery/", n) :: At(after, n) == At(before, n)
  }

  /** The run's own archive holds every old ref, and exactly the payload roots the state cache named. */
  ghost predicate OldRefsArchived(
    graph: string, id: string, objects: Objects, before: Refs, after: Refs, keep: RefName -> bool)
  {
    var prefix, cache := "refs/warp/" + graph + "/recovery/v18-to-v19/" + id, "refs/warp/" + graph + "/state-cache";
    && (forall n | keep(n) && n in before && Lies(graph, "", n) && !Lies(graph, "recovery/", n) ::
          var archived := prefix + "/refs/" + n[|"refs/warp/" + graph + "/"|..];
          keep(archived) ==> At(after, archived) == At(before, n))
    && (keep(cache) && cache in before ==> objects.payloads(before[cache]).Some?)
    && forall o | keep(cache) && keep(prefix + "/retained-payloads/" + o) ::
         var archived := prefix + "/retained-payloads/" + o;
         At(after, archived) == if cache in before && o in objects.payloads(before[cache]).value then Some(o)
                                else At(before, archived)
  }

  /** Older archives and other graphs keep their refs; only the run's own import names are not accounted for. */
  ghost predicate OthersUnchanged(graph: string, id: string, before: Refs, after: Refs, keep: RefName -> bool) {
    forall n | keep(n) ::
      && (Lies(graph, "recovery/", n) && n in before ==> At(after, n) == At(before, n))
      && (!Lies(graph, "", n) && !("refs/warp-migration-import/v18-to-v19/" + id + "/" <= n) ==>
            At(after, n) == At(before, n))
  }

  /** Which endings leave the graph migrated. */
  ghost predicate LeftMigrated(o: Outcome) {
    match Unhidden(o)
    case Migrated(_, _) => true
    case RollbackStuck(_, _) => true
    case FinalizationError(_, r) => Unmasked(r).Finalized? || Unmasked(r).RollbackIncomplete?
    case _ => false
  }

  /** Which endings leave the old refs, and their archive beside them. */
  ghost predicate LeftArchived(o: Outcome) {
    match Unhidden(o)
    case RolledBackError(_, _) => true
    case FinalizationError(_, r) => Unmasked(r).RolledBackAfter?
    case _ => false
  }

  /** What every ending leaves at the kept names, told by the names alone. */
  ghost predicate LeavesByName(
    o: Outcome, graph: string, id: string, objects: Objects, work: ScratchWork, before: Refs, after: Refs,
    keep: RefName -> bool)
  {
    && OthersUnchanged(graph, id, before, after, keep)
    && (LeftMigrated(o) ==> GraphMigrated(graph, work, before, after, keep))
    && (!LeftMigrated(o) ==> GraphUnchanged(graph, before, after, keep))
    && (LeftMigrated(o) || LeftArchived(o) ==> OldRefsArchived(graph, id, objects, before, after, keep))
    && (!LeftMigrated(o) && !LeftArchived(o) ==>
          forall n | keep(n) && Lies(graph, "", n) :: At(after, n) == At(before, n))
  }

  /** No outcome hides a hidden one. */
  ghost predicate Plain(o: Outcome) {
    && (o.CleanupError? ==> !o.masked.CleanupError?)
    && (Unhidden(o).FinalizationError? && Unhidden(o).result.CleanupFailed? ==>
          !Unhidden(o).result.masked.CleanupFailed?)
  }

  lemma ExtentsByOutcome(o: Outcome)
    requires Plain(o)
    ensures ExtentOf(o).PromotedTo? <==> LeftMigrated(o)
    ensures ExtentOf(o).ArchivedOnly? <==> LeftArchived(o)
  {
    var u := Unhidden(o);
    assert ExtentOf(o) == ExtentOf(u);
    if u.FinalizationError? {
      var r := Unmasked(u.result);
      assert ExtentOf(u) == ExtentOfResult(SourceRefs(u.plan), u.result) == ExtentOfResult(SourceRefs(u.plan), r);
    }
  }

  /** A ref that the planner can file under no two classes, and the marker under none. */
  lemma ClassesApart(graph: string, n: RefName)
    ensures !(Below(graph, "writers/", n) && (IsPreservedName(graph, n) || Retired(graph, n)))
    ensures !(IsPreservedName(graph, n) && Retired(graph, n))
    ensures n == MarkerRef(graph) ==> !Below(graph, "writers/", n) && !IsPreservedName(graph, n) && !Retired(graph, n)
    ensures n == CheckpointRef(graph) ==> Retired(graph, n)
  {
    hide Classify, Below, IsPreservedName;
    ClassifyIgnoresOrder(graph, n);
    MarkerIsUnclassed(graph);
  }

  /** What the migration wants of a ref is what its name says. */
  lemma WantedByName(graph: string, work: ScratchWork, n: RefName, before: Option<Oid>)
    requires work.seed.None? ==> work.published.Some?
    requires PublishesDerived(graph, work) && InSources(graph, n)
    ensures MigratedName(graph, work, n, before, Wanted(graph, before, work, n))
  {
    hide Classify, Below, IsPreservedName, Retired, InGraph, Lies, Retained, Rebuilt, MarkerRef, CheckpointRef;
    NamesSpelled(graph);
    ClassesByName(graph, n);
    ClassesApart(graph, n);
  }

  /** A migration says nothing of names that are no sources. */
  lemma NoSourceNoClaim(graph: string, work: ScratchWork, n: RefName, before: Option<Oid>, after: Option<Oid>)
    requires !InSources(graph, n)
    ensures MigratedName(graph, work, n, before, after)
  {
    ClassesByName(graph, n);
    NamesSpelled(graph);
    ClassifyIgnoresOrder(graph, n);
    MarkerIsUnclassed(graph);
    ClassifyIgnoresOrder(graph, MarkerRef(graph));
    FiledInGraph(graph, n);
    hide Classify, Below, IsPreservedName, InGraph, Lies, Retained, Rebuilt, MarkerRef, CheckpointRef;
  }

  lemma FiledInGraph(graph: string, n: RefName)
    ensures Below(graph, "writers/", n) || IsPreservedName(graph, n) || Retired(graph, n) || n == MarkerRef(graph) ==>
              InGraph(graph, n)
  {
    hide Classify;
    ClassifyIgnoresOrder(graph, n);
    if Classify(graph, n) != UnknownRef || n == MarkerRef(graph) {
      ClassifiedInGraph(graph, n);
    }
  }

  lemma MigratedByName(
    e: Extent, graph: string, id: string, work: ScratchWork, before: Refs, after: Refs, keep: RefName -> bool)
    requires Accounted(e, graph, id, work, before, after, keep) && PublishesDerived(graph, work)
    ensures e.PromotedTo? ==> GraphMigrated(graph, work, before, after, keep)
    ensures !e.PromotedTo? ==> GraphUnchanged(graph, before, after, keep)
    ensures OthersUnchanged(graph, id, before, after, keep)
  {
    hide InGraph, Below, Wanted, ArchiveRef, RecoveryPrefix, MigratedName, PublishesDerived, Lies;
    forall n | keep(n)
      ensures e.PromotedTo? ==> MigratedName(graph, work, n, At(before, n), At(after, n))
    {
      if e.PromotedTo? && InSources(graph, n) {
        WantedByName(graph, work, n, At(before, n));
      } else if e.PromotedTo? {
        NoSourceNoClaim(graph, work, n, At(before, n), At(after, n));
      }
    }
    forall n: RefName
      ensures Lies(graph, "recovery/", n) <==> Below(graph, "recovery/", n)
      ensures Lies(graph, "", n) <==> InGraph(graph, n)
      ensures Below(graph, "recovery/", n) ==> InGraph(graph, n)
    {
      AreasSpelled(graph, "recovery/", n);
      AreasSpelled(graph, "", n);
      RecoveryLiesInTheGraph(graph, n);
    }
  }

  lemma RecoveryLiesInTheGraph(graph: string, n: RefName)
    ensures Below(graph, "recovery/", n) ==> InGraph(graph, n)
  {
  }

  /** The state cache of a kept name is the one whose payloads are archived. */
  lemma SameStateCache(
    e: Extent, graph: string, id: string, objects: Objects, work: ScratchWork, before: Refs, after: Refs,
    keep: RefName -> bool)
    requires e != Untouched && Backed(e, graph, id, objects, work, before, keep)
    requires forall m | keep(m) && !IsImportName(id, m) :: EndsAt(e, m, At(before, m), At(after, m))
    ensures var cache := "refs/warp/" + graph + "/state-cache";
            keep(cache) ==> (cache in before <==> cache in e.source)
                            && (cache in before ==> e.source[cache] == before[cache])
  {
    hide InGraph, Below, Wanted, ArchivesAll, IsImportName, Classify;
    NamesSpelled(graph);
    var cache := StateCacheRef(graph);
    ClassifyIgnoresOrder(graph, cache);
    FiledInGraph(graph, cache);
    ImportNameIsNotInGraph(graph, id, cache);
    if keep(cache) {
      assert EndsAt(e, cache, At(before, cache), At(after, cache));
    }
  }

  lemma PayloadLeft(
    e: Extent, graph: string, id: string, objects: Objects, work: ScratchWork, before: Refs, after: Refs,
    keep: RefName -> bool, o: Oid)
    requires e != Untouched && Backed(e, graph, id, objects, work, before, keep)
    requires forall m | keep(m) && !IsImportName(id, m) :: EndsAt(e, m, At(before, m), At(after, m))
    ensures var archived := "refs/warp/" + graph + "/recovery/v18-to-v19/" + id + "/retained-payloads/" + o;
            var cache := "refs/warp/" + graph + "/state-cache";
            keep(cache) && keep(archived) ==>
              && (cache in before ==> objects.payloads(before[cache]).Some?)
              && At(after, archived) == if cache in before && o in objects.payloads(before[cache]).value then Some(o)
                                        else At(before, archived)
  {
    hide InGraph, Below, Wanted, IsImportName, IsArchive;
    SameStateCache(e, graph, id, objects, work, before, after, keep);
    var archived := "refs/warp/" + graph + "/recovery/v18-to-v19/" + id + "/retained-payloads/" + o;
    PayloadInRecovery(graph, id, o);
    ImportNameIsNotInGraph(graph, id, archived);
    if keep(archived) {
      assert EndsAt(e, archived, At(before, archived), At(after, archived));
    }
  }

  lemma PayloadInRecovery(graph: string, id: string, o: Oid)
    ensures var archived := "refs/warp/" + graph + "/recovery/v18-to-v19/" + id + "/retained-payloads/" + o;
            InGraph(graph, archived) && Below(graph, "recovery/", archived)
  {
    NamesSpelled(graph);
    var archived := "refs/warp/" + graph + "/recovery/v18-to-v19/" + id + "/retained-payloads/" + o;
    assert archived == "refs/warp/" + graph + "/" + "recovery/" + ("v18-to-v19/" + id + "/retained-payloads/" + o);
    assert archived == "refs/warp/" + graph + "/" + ("recovery/" + ("v18-to-v19/" + id + "/retained-payloads/" + o));
  }

  lemma CachePayloadsRead(
    e: Extent, graph: string, id: string, objects: Objects, work: ScratchWork, before: Refs, after: Refs,
    keep: RefName -> bool)
    requires e != Untouched && Backed(e, graph, id, objects, work, before, keep)
    requires forall m | keep(m) && !IsImportName(id, m) :: EndsAt(e, m, At(before, m), At(after, m))
    ensures var cache := "refs/warp/" + graph + "/state-cache";
            keep(cache) && cache in before ==> objects.payloads(before[cache]).Some?
  {
    hide InGraph, Below, Wanted, IsImportName, IsArchive, EndsAt;
    SameStateCache(e, graph, id, objects, work, before, after, keep);
  }

  lemma ArchivedByName(
    e: Extent, graph: string, id: string, objects: Objects, work: ScratchWork, before: Refs, after: Refs,
    keep: RefName -> bool)
    requires e != Untouched && Backed(e, graph, id, objects, work, before, keep)
    requires forall m | keep(m) && !IsImportName(id, m) :: EndsAt(e, m, At(before, m), At(after, m))
    requires Accounted(e, graph, id, work, before, after, keep)
    ensures OldRefsArchived(graph, id, objects, before, after, keep)
  {
    hide Backed, EndsAt, Accounted, Lies, IsImportName;
    SourcesByName(e, graph, id, work, before, after, keep);
    CachePayloadsRead(e, graph, id, objects, work, before, after, keep);
    forall o
      ensures var archived := "refs/warp/" + graph + "/recovery/v18-to-v19/" + id + "/retained-payloads/" + o;
              var cache := "refs/warp/" + graph + "/state-cache";
              keep(cache) && keep(archived) ==>
                && (cache in before ==> objects.payloads(before[cache]).Some?)
                && At(after, archived) == if cache in before && o in objects.payloads(before[cache]).value then Some(o)
                                          else At(before, archived)
    {
      PayloadLeft(e, graph, id, objects, work, before, after, keep, o);
    }
  }

  lemma SourcesByName(
    e: Extent, graph: string, id: string, work: ScratchWork, before: Refs, after: Refs, keep: RefName -> bool)
    requires e != Untouched && Accounted(e, graph, id, work, before, after, keep)
    ensures forall n | keep(n) && n in before && Lies(graph, "", n) && !Lies(graph, "recovery/", n) ::
              && |"refs/warp/" + graph + "/"| <= |n|
              && var archived := "refs/warp/" + graph + "/recovery/v18-to-v19/" + id + "/refs/"
                                 + n[|"refs/warp/" + graph + "/"|..];
                 keep(archived) ==> At(after, archived) == At(before, n)
  {
    hide Wanted, IsImportName, Below, InGraph, Lies, ArchiveRef;
    forall n | keep(n) && n in before && Lies(graph, "", n) && !Lies(graph, "recovery/", n)
      ensures InSources(graph, n) && |"refs/warp/" + graph + "/"| <= |n|
      ensures ArchiveRef(graph, RecoveryPrefix(graph, id), n)
           == "refs/warp/" + graph + "/recovery/v18-to-v19/" + id + "/refs/" + n[|"refs/warp/" + graph + "/"|..]
    {
      AreasSpelled(graph, "", n);
      AreasSpelled(graph, "recovery/", n);
      ArchiveSpelled(graph, id, n);
    }
  }

  lemma ArchiveSpelled(graph: string, id: string, n: RefName)
    requires InGraph(graph, n)
    ensures |"refs/warp/" + graph + "/"| <= |n|
    ensures ArchiveRef(graph, RecoveryPrefix(graph, id), n)
         == "refs/warp/" + graph + "/recovery/v18-to-v19/" + id + "/refs/" + n[|"refs/warp/" + graph + "/"|..]
  {
    NamesSpelled(graph);
    RecoveryPrefixSays(graph, id);
  }

  /** Every ending, told by the names alone. */
  lemma RunByName(
    o: Outcome, graph: string, id: string, objects: Objects, work: ScratchWork, before: Refs, after: Refs,
    keep: RefName -> bool)
    requires Plain(o) && PublishesDerived(graph, work)
    requires Backed(ExtentOf(o), graph, id, objects, work, before, keep)
    requires forall m | keep(m) && !IsImportName(id, m) :: EndsAt(ExtentOf(o), m, At(before, m), At(after, m))
    requires Accounted(ExtentOf(o), graph, id, work, before, after, keep)
    ensures LeavesByName(o, graph, id, objects, work, before, after, keep)
  {
    hide Backed, IsImportName, Below, InGraph, Lies, Accounted, ExtentOf, LeftMigrated, LeftArchived, PublishesDerived,
         GraphMigrated, GraphUnchanged, OthersUnchanged, OldRefsArchived, PromotedName, ArchivedName, Plain;
    ExtentsByOutcome(o);
    var e := ExtentOf(o);
    MigratedByName(e, graph, id, work, before, after, keep);
    if e.Untouched? {
      forall n | keep(n) && Lies(graph, "", n)
        ensures At(after, n) == At(before, n)
      {
        AreasSpelled(graph, "", n);
        ImportNameIsNotInGraph(graph, id, n);
        assert EndsAt(e, n, At(before, n), At(after, n));
      }
    } else {
      ArchivedByName(e, graph, id, objects, work, before, after, keep);
    }
  }

  lemma MarkerIsWanted(graph: string, before: Option<Oid>, work: ScratchWork)
    requires work.seed.None? ==> work.published.Some?
    ensures InSources(graph, MarkerRef(graph)) && Wanted(graph, before, work, MarkerRef(graph)) == work.marker
  {
    hide Classify;
    MarkerIsUnclassed(graph);
    ClassifyIgnoresOrder(graph, MarkerRef(graph));
  }

  // ---------------------------------------------------- a store that stands still

  /** The refs a migration of this store must account for. */
  function SourcesOf(graph: string, refs: Refs): Refs {
    map n | n in refs && InSources(graph, n) :: refs[n]
  }

  lemma PlanTakesAllSources(graph: string, objects: Objects, refs: Refs, passphrase: bool, plan: Plan)
    requires ListsAll(objects) && Inventoried(graph, InventoryOf(graph, objects, refs), passphrase, plan)
    ensures SourceRefs(plan) == SourcesOf(graph, refs)
  {
    hide Classify, InGraph, Below, Inventoried, SourceRefs, MarkerRef;
    var inv := InventoryOf(graph, objects, refs);
    SourceRefsAreTheInventory(graph, inv, passphrase, plan);
    forall n
      ensures At(SourceRefs(plan), n) == At(SourcesOf(graph, refs), n)
    {
      ClassifyIgnoresOrder(graph, n);
      assert n in inv.listing <==> n in GraphNames(graph, refs);
    }
    SameEverywhere(SourceRefs(plan), SourcesOf(graph, refs));
  }

  /** Every writer was rewritten. */
  ghost predicate HasHeads(graph: string, refs: Refs, work: ScratchWork) {
    forall n | n in refs && Below(graph, "writers/", n) :: n in work.heads
  }

  /** The scratch work succeeds on the refs as they stand. */
  ghost predicate WorkSucceeds(graph: string, refs: Refs, work: ScratchWork) {
    && HasHeads(graph, refs, work)
    && work.marker.Some? && !work.seedFails && work.verified
    && (work.seed.Some? ==> CheckpointRef(graph) in refs)
    && (work.seed.None? ==> work.published.Some?)
  }

  lemma PreparesOnStillRefs(
    graph: string, objects: Objects, refs: Refs, passphrase: bool, plan: Plan, work: ScratchWork)
    requires ListsAll(objects) && Inventoried(graph, InventoryOf(graph, objects, refs), passphrase, plan)
    ensures Prepares(plan, refs, work) <==> WorkSucceeds(graph, refs, work)
  {
    hide Classify, InGraph, Below, MarkerRef, CheckpointRef, WriterRefs;
    var inv := InventoryOf(graph, objects, refs);
    PlanNames(graph, inv, passphrase, plan);
    assert Files(graph, inv, inv.listing, plan.derivedRefs, plan.preservedRefs);
    forall n
      ensures IsPlanned(plan, n) ==> n in refs
      ensures n in plan.derivedRefs ==> At(refs, n) == Some(plan.derivedRefs[n])
      ensures IsWriterRef(plan, n) <==> n in refs && Below(graph, "writers/", n)
    {
      PlannedNames(graph, inv, passphrase, plan, n);
      ClassifyIgnoresOrder(graph, n);
      WritersLieInTheGraph(graph, n);
      assert n in inv.listing <==> n in GraphNames(graph, refs);
    }
    var c := CheckpointRef(graph);
    ClassifyIgnoresOrder(graph, c);
    ClassifiedInGraph(graph, c);
    assert c in inv.listing <==> c in GraphNames(graph, refs);
  }

  lemma WritersLieInTheGraph(graph: string, n: RefName)
    ensures Below(graph, "writers/", n) ==> InGraph(graph, n)
  {
  }

  /** The retained payload roots of the inventoried state cache. */
  function PayloadsOf(objects: Objects, graph: string, source: Refs): Option<set<Oid>> {
    if StateCacheRef(graph) in source then objects.payloads(source[StateCacheRef(graph)]) else None
  }

  /** The value an archive holds under a name. */
  ghost function ArchivedValue(graph: string, prefix: string, source: Refs, m: RefName): Oid
    requires forall n | n in source :: InGraph(graph, n)
  {
    if exists n :: n in source && m == ArchiveRef(graph, prefix, n) then
      var n :| n in source && m == ArchiveRef(graph, prefix, n);
      source[n]
    else if PayloadRef(prefix, "") <= m then m[|PayloadRef(prefix, "")|..]
    else ""
  }

  lemma ArchivedValues(graph: string, prefix: string, source: Refs, n: RefName, oid: Oid)
    requires forall m | m in source :: InGraph(graph, m)
    ensures n in source ==> ArchivedValue(graph, prefix, source, ArchiveRef(graph, prefix, n)) == source[n]
    ensures ArchivedValue(graph, prefix, source, PayloadRef(prefix, oid)) == oid
  {
    forall m | m in source
      ensures ArchiveRef(graph, prefix, m) != PayloadRef(prefix, oid)
      ensures n in source && ArchiveRef(graph, prefix, m) == ArchiveRef(graph, prefix, n) ==> m == n
    {
      ArchivesAreApart(graph, prefix, m, oid);
      if n in source && ArchiveRef(graph, prefix, m) == ArchiveRef(graph, prefix, n) {
        ArchiveRefInjective(graph, prefix, m, n);
      }
    }
  }

  lemma ArchiveExists(graph: string, prefix: string, source: Refs, payloads: set<Oid>)
    requires forall n | n in source :: InGraph(graph, n)
    ensures exists a :: IsArchive(graph, prefix, source, payloads, a)
  {
    hide ArchiveRef, PayloadRef, InGraph, ArchivedValue;
    var names := (set n | n in source :: ArchiveRef(graph, prefix, n))
                 + set o | o in payloads :: PayloadRef(prefix, o);
    var archive := map m | m in names :: ArchivedValue(graph, prefix, source, m);
    forall n | n in source
      ensures ArchivedValue(graph, prefix, source, ArchiveRef(graph, prefix, n)) == source[n]
    {
      ArchivedValues(graph, prefix, source, n, "");
    }
    forall o | o in payloads
      ensures ArchivedValue(graph, prefix, source, PayloadRef(prefix, o)) == o
    {
      ArchivedValues(graph, prefix, source, "", o);
    }
    assert IsArchive(graph, prefix, source, payloads, archive);
  }

  /** On a store that stands still only the archive's names can be in the way. */
  lemma OnlyTheArchiveBlocks(
    refs: Refs, graph: string, id: string, desired: Refs, payloads: Option<set<Oid>>, faults: Faults)
    requires forall n | n in desired :: InSources(graph, n)
    ensures GoesThrough(refs, graph, id, SourcesOf(graph, refs), desired, payloads, faults)
       <==> && (StateCacheRef(graph) in SourcesOf(graph, refs) ==> payloads.Some?)
            && !faults.recoveryRead && !faults.transaction
            && ArchiveIsFree(refs, graph, RecoveryPrefix(graph, id), SourcesOf(graph, refs),
                             PayloadsToArchive(graph, SourcesOf(graph, refs), payloads))
  {
    hide InGraph, Below, RecoveryPrefix, StateCacheRef, PayloadsToArchive, IsArchive, ArchiveIsFree;
    var source := SourcesOf(graph, refs);
    var roots := PayloadsToArchive(graph, source, payloads);
    var prefix := RecoveryPrefix(graph, id);
    ArchiveExists(graph, prefix, source, roots);
    var archive :| IsArchive(graph, prefix, source, roots, archive);
    TheArchive(refs, graph, prefix, source, desired, roots, archive);
    ArchiveInGraph(graph, id, source, roots, archive);
    FreeMeansAbsent(refs, graph, prefix, source, roots, archive);
    assert CanPromote(refs, source, desired, archive) <==> forall m | m in archive :: m !in refs;
  }

  // -------------------------------------------------------------------- run

  /** Every prepared ref can be fetched. */
  ghost predicate ImportsFetch(desired: Refs, faults: Faults) {
    forall n | n in desired :: n !in faults.imports
  }

  /** The outcome a failed cleanup hid, or the outcome itself. */
  function Unhidden(o: Outcome): Outcome {
    if o.CleanupError? then o.masked else o
  }

  /**
   Once a run reaches the promotion, the faults alone decide how it ends: `reaches` says that
   it does, `deletes` that the temporary refs can be deleted again.
   */
  ghost predicate FaultsDecide(o: Outcome, reaches: bool, deletes: bool, faults: RunFaults) {
    var inner := faults.finalizing;
    && (o.Migrated? <==> reaches && !inner.verification && deletes && !faults.verification)
    && (o.RolledBackError? <==> reaches && !inner.verification && deletes && faults.verification && !faults.rollback)
    && (o.RollbackStuck? <==> reaches && !inner.verification && deletes && faults.verification && faults.rollback)
    && ((o.FinalizationError? && Unmasked(o.result).RolledBackAfter?)
        <==> reaches && inner.verification && !inner.rollback)
    && ((o.FinalizationError? && Unmasked(o.result).RollbackIncomplete?)
        <==> reaches && inner.verification && inner.rollback)
    && ((o.FinalizationError? && Unmasked(o.result).Finalized?) <==> reaches && !inner.verification && !deletes)
  }

  /** Finalize, verify the promoted repository, and roll back if that fails. */
  method PromoteAndVerify(
    repo: Repository, objects: Objects, plan: Plan, desired: Refs, id: string, faults: RunFaults,
    ghost keep: RefName -> bool)
    returns (o: Outcome)
    requires PlannedInGraph(plan) && forall n | n in desired :: InGraph(plan.graph, n)
    modifies repo
    ensures forall n | keep(n) && !IsImportName(id, n) ::
              EndsAt(ExtentOf(o), n, At(old(repo.refs), n), At(repo.refs, n))
    ensures var e := ExtentOf(o);
            e.Untouched? || (&& e.source == SourceRefs(plan) && e.f.promotedRefs == desired
                             && ArchivesAll(plan.graph, id, objects, e.source, e.f.recoveryRefs))
    ensures o.Migrated? || o.FinalizationError? || o.RolledBackError? || o.RollbackStuck?
    ensures Plain(o)
    ensures o.FinalizationError? ==> !o.result.Finalized?
    ensures (forall n :: keep(n)) ==>
              FaultsDecide(o, && ValidRecoveryId(id) && ImportsFetch(desired, faults.finalizing)
                              && GoesThrough(old(repo.refs), plan.graph, id, SourceRefs(plan), desired,
                                             PayloadsOf(objects, plan.graph, SourceRefs(plan)), faults.finalizing),
                           DeletesImports(id, desired, faults.finalizing), faults)
  {
    hide ImportRef, IsImportName, InGraph, SourceRefs, ValidRecoveryId, GoesThrough, Reports, Leaves, IsArchive,
         RecoveryPrefix, DeletesImports, ArchivesAll, PayloadsOf, PromotedName, ArchivedName;
    var source := SourceRefsFor(plan);
    var payloads := PayloadsOf(objects, plan.graph, source);
    ghost var before := repo.refs;
    var r := FinalizeMigration(repo, plan, desired, desired, id, payloads, faults.finalizing, keep);
    ghost var middle := repo.refs;
    forall n | keep(n) && !IsImportName(id, n)
      ensures EndsAt(ExtentOfResult(source, r), n, At(before, n), At(middle, n))
    {
      LeavesAtExtent(r, source, n, At(before, n), At(middle, n));
    }
    ResultsAccount(r, plan, id, objects, desired);
    if !r.Finalized? {
      return FinalizationError(plan, r);
    }
    o := VerifyOrRollBack(repo, objects, plan, id, r.finalization, before, faults, keep);
  }

  /** Checks what was promoted, and takes it back if the check fails. */
  method VerifyOrRollBack(
    repo: Repository, objects: Objects, plan: Plan, id: string, f: Finalization, ghost before: Refs, faults: RunFaults,
    ghost keep: RefName -> bool)
    returns (o: Outcome)
    requires PlannedInGraph(plan) && forall n | n in f.promotedRefs :: InGraph(plan.graph, n)
    requires ArchivesAll(plan.graph, id, objects, SourceRefs(plan), f.recoveryRefs)
    requires forall n | keep(n) && !IsImportName(id, n) ::
               PromotedName(f, SourceRefs(plan), n, At(before, n), At(repo.refs, n))
    modifies repo
    ensures o == Migrated(plan, f) || o == RolledBackError(plan, f) || o == RollbackStuck(plan, f)
    ensures forall n | keep(n) && !IsImportName(id, n) :: EndsAt(ExtentOf(o), n, At(before, n), At(repo.refs, n))
    ensures (forall n :: keep(n)) ==>
              && (o.Migrated? <==> !faults.verification)
              && (o.RollbackStuck? <==> faults.verification && faults.rollback)
  {
    hide IsImportName, InGraph, SourceRefs, ArchivesAll;
    ghost var middle := repo.refs;
    repo.Foreign(keep);
    if !faults.verification {
      return Migrated(plan, f);
    }
    ghost var end := repo.refs;
    if forall n :: keep(n) {
      StillPromoted(objects, plan, id, SourceRefs(plan), f, before, middle, end);
    }
    var undone := RollbackMigration(repo, plan, f, faults.rollback);
    if !undone {
      return RollbackStuck(plan, f);
    }
    UndoneKept(id, before, middle, end, SourceRefs(plan), f, keep);
    o := RolledBackError(plan, f);
  }

  /** With nobody else writing, the promoted refs can be rolled back. */
  lemma StillPromoted(
    objects: Objects, plan: Plan, id: string, source: Refs, f: Finalization, before: Refs, middle: Refs, end: Refs)
    requires PlannedInGraph(plan) && source == SourceRefs(plan)
    requires forall n | n in f.promotedRefs :: InGraph(plan.graph, n)
    requires ArchivesAll(plan.graph, id, objects, source, f.recoveryRefs)
    requires forall n | !IsImportName(id, n) :: PromotedName(f, source, n, At(before, n), At(middle, n))
    requires forall n :: At(end, n) == At(middle, n)
    ensures CanRollBack(end, source, f.promotedRefs)
  {
    hide IsImportName, InGraph, Below, SourceRefs;
    forall n | n in f.promotedRefs || n in source
      ensures At(end, n) == if n in f.promotedRefs then Some(f.promotedRefs[n]) else None
    {
      ImportNameIsNotInGraph(plan.graph, id, n);
      assert PromotedName(f, source, n, At(before, n), At(middle, n));
    }
  }

  lemma UndoneKept(
    id: string, before: Refs, middle: Refs, end: Refs, source: Refs, f: Finalization, keep: RefName -> bool)
    requires forall n | keep(n) && !IsImportName(id, n) :: PromotedName(f, source, n, At(before, n), At(middle, n))
    requires forall n | keep(n) :: At(end, n) == At(middle, n)
    requires CanRollBack(end, source, f.promotedRefs)
    ensures forall n | keep(n) && !IsImportName(id, n) ::
              ArchivedName(f, source, n, At(before, n), At(RolledBack(end, source, f.promotedRefs), n))
  {
    hide IsImportName;
  }

  lemma ResultsAccount(r: FinalizeResult, plan: Plan, id: string, objects: Objects, desired: Refs)
    requires PlannedInGraph(plan) && Reports(r, plan.graph, id, SourceRefs(plan), desired,
                                              PayloadsOf(objects, plan.graph, SourceRefs(plan)))
    ensures var e := ExtentOfResult(SourceRefs(plan), r);
            e.Untouched? || (&& e.source == SourceRefs(plan) && e.f.promotedRefs == desired
                             && ArchivesAll(plan.graph, id, objects, e.source, e.f.recoveryRefs))
  {
    hide SourceRefs, InGraph, Below, IsArchive, RecoveryPrefix, FullArchive, PayloadsOf;
    CachedPayloads(objects, plan.graph, SourceRefs(plan));
  }

  lemma CachedPayloads(objects: Objects, graph: string, source: Refs)
    ensures var cache := "refs/warp/" + graph + "/state-cache";
            PayloadsOf(objects, graph, source) == if cache in source then objects.payloads(source[cache]) else None
  {
    NamesSpelled(graph);
  }

  /** A prepared run on a store that nobody else writes goes through with its promotion. */
  ghost predicate PromotionReached(
    plan: Plan, objects: Objects, refs: Refs, mode: Mode, id: string, desired: Refs, faults: RunFaults)
    requires PlannedInGraph(plan)
  {
    && mode.PromoteRefs? && !faults.replanning && !faults.announcement
    && ValidRecoveryId(id) && ImportsFetch(desired, faults.finalizing)
    && GoesThrough(refs, plan.graph, id, SourceRefs(plan), desired, PayloadsOf(objects, plan.graph, SourceRefs(plan)),
                   faults.finalizing)
  }

  /** After the preparation: dry runs stop here; the others plan again, and promote if nothing moved. */
  method Promote(
    repo: Repository, graph: string, objects: Objects, passphrase: bool, mode: Mode, id: string, faults: RunFaults,
    plan: Plan, desired: Refs, ghost keep: RefName -> bool)
    returns (o: Outcome)
    requires ListsAll(objects)
    requires plan.graph == graph && PlannedInGraph(plan) && forall n | n in desired :: InGraph(graph, n)
    modifies repo
    ensures forall n | keep(n) && !IsImportName(id, n) ::
              EndsAt(ExtentOf(o), n, At(old(repo.refs), n), At(repo.refs, n))
    ensures var e := ExtentOf(o);
            e.Untouched? || (&& e.source == SourceRefs(plan) && e.f.promotedRefs == desired
                             && ArchivesAll(graph, id, objects, e.source, e.f.recoveryRefs))
    ensures !o.CleanupError? && !o.AlreadyCurrent? && !o.NothingThere?
    ensures Plain(o)
    ensures o.FinalizationError? ==> !o.result.Finalized?
    ensures o.VerifiedDryRun? <==> mode.Rehearse?
    ensures (forall n :: keep(n)) && Inventoried(graph, InventoryOf(graph, objects, old(repo.refs)), passphrase, plan)
            && NeedsMigration(graph, objects, old(repo.refs), passphrase) ==>
              FaultsDecide(o, PromotionReached(plan, objects, old(repo.refs), mode, id, desired, faults),
                           DeletesImports(id, desired, faults.finalizing), faults)
  {
    hide IsImportName, InGraph, SourceRefs, ValidRecoveryId, GoesThrough, IsArchive, RecoveryPrefix, ImportsFetch,
         DeletesImports, PayloadsOf, NeedsMigration, Inventoried, InventoryOf, ArchivesAll, ExtentOfResult;
    if mode.Rehearse? {
      return VerifiedDryRun;
    }
    ghost var before := repo.refs;
    var refreshed, second := PlanNow(repo, graph, objects, passphrase, faults.replanning, keep);
    KeptStore(before, repo.refs, keep);
    if refreshed.None? {
      return Stopped(Replanning);
    }
    if Inventoried(graph, second, passphrase, refreshed.value) && Inventoried(graph, second, passphrase, plan) {
      PlanIsDetermined(graph, second, passphrase, refreshed.value, plan);
    }
    if !Unchanged(plan, refreshed.value) {
      return Stopped(UnchangedCheck);
    }
    if faults.announcement {
      return Stopped(Announcing);
    }
    o := PromoteAndVerify(repo, objects, plan, desired, id, faults, keep);
  }

  /** With nobody else writing, exactly these runs reach a promotion that goes through. */
  ghost predicate ReachesPromotion(
    graph: string, objects: Objects, refs: Refs, passphrase: bool, mode: Mode, work: ScratchWork, id: string,
    faults: RunFaults)
  {
    var source := SourcesOf(graph, refs);
    var payloads := PayloadsOf(objects, graph, source);
    && mode.PromoteRefs? && NeedsMigration(graph, objects, refs, passphrase) && WorkSucceeds(graph, refs, work)
    && ValidRecoveryId(id) && (StateCacheRef(graph) in source ==> payloads.Some?)
    && ArchiveIsFree(refs, graph, RecoveryPrefix(graph, id), source, PayloadsToArchive(graph, source, payloads))
    && !faults.planning && !faults.replanning && !faults.announcement
    && !faults.finalizing.recoveryRead && !faults.finalizing.transaction
    && forall n | InSources(graph, n) && Wanted(graph, At(refs, n), work, n).Some? :: n !in faults.finalizing.imports
  }

  /** The temporary refs of all wanted refs can be deleted again. */
  ghost predicate DeletesTemporaries(graph: string, refs: Refs, work: ScratchWork, id: string, faults: RunFaults)
    requires work.seed.None? ==> work.published.Some?
  {
    forall n | InSources(graph, n) && Wanted(graph, At(refs, n), work, n).Some? ::
      ImportRef(id, n) !in faults.finalizing.importDeletion
  }

  /** The ending of a run with nobody else writing, as its store and its faults decide it. */
  ghost predicate Decided(
    o: Outcome, graph: string, objects: Objects, refs: Refs, passphrase: bool, mode: Mode, work: ScratchWork,
    id: string, faults: RunFaults)
  {
    var reaches := ReachesPromotion(graph, objects, refs, passphrase, mode, work, id, faults);
    FaultsDecide(o, reaches, reaches && DeletesTemporaries(graph, refs, work, id, faults), faults)
  }

  /** The same with the dry runs and the cleanup, which may hide any ending of a prepared run. */
  ghost predicate EndsAsDecided(
    o: Outcome, graph: string, objects: Objects, refs: Refs, passphrase: bool, mode: Mode, work: ScratchWork,
    id: string, faults: RunFaults)
  {
    var prepared :=
      !faults.planning && NeedsMigration(graph, objects, refs, passphrase) && WorkSucceeds(graph, refs, work);
    && Decided(Unhidden(o), graph, objects, refs, passphrase, mode, work, id, faults)
    && (Unhidden(o).VerifiedDryRun? <==> mode.Rehearse? && prepared)
    && (o.CleanupError? <==> faults.cleanup && prepared)
  }

  /** Prepare, promote, and remove the disposable repository whatever happened. */
  method PrepareAndPromote(
    repo: Repository, graph: string, objects: Objects, passphrase: bool, mode: Mode, work: ScratchWork, id: string,
    faults: RunFaults, plan: Plan, ghost inv: Inventory, ghost keep: RefName -> bool)
    returns (o: Outcome)
    requires ListsAll(objects) && PublishesDerived(graph, work)
    requires Inventoried(graph, inv, passphrase, plan)
    requires forall a, b | 0 <= a < b < |inv.listing| :: inv.listing[a] != inv.listing[b]
    requires forall n | n in inv.listing :: InGraph(graph, n)
    requires forall n | keep(n) && InGraph(graph, n) :: n in inv.listing <==> n in repo.refs
    modifies repo
    ensures forall n | keep(n) && !IsImportName(id, n) ::
              EndsAt(ExtentOf(o), n, At(old(repo.refs), n), At(repo.refs, n))
    ensures Backed(ExtentOf(o), graph, id, objects, work, old(repo.refs), keep)
    ensures !o.AlreadyCurrent? && !o.NothingThere? && Plain(o)
    ensures ExtentOf(o).Untouched? || forall n | IsWriterRef(plan, n) :: n in work.heads
    ensures (forall n :: keep(n)) && !faults.planning && NeedsMigration(graph, objects, old(repo.refs), passphrase)
            && inv == InventoryOf(graph, objects, old(repo.refs)) ==>
              EndsAsDecided(o, graph, objects, old(repo.refs), passphrase, mode, work, id, faults)
  {
    hide IsImportName, InGraph, SourceRefs, ValidRecoveryId, GoesThrough, IsArchive, RecoveryPrefix, ImportsFetch,
         DeletesImports, PayloadsOf, NeedsMigration, Inventoried, InventoryOf, ArchivesAll, ExtentOfResult, Backed,
         EndsAt, Prepares, ReachesPromotion, DeletesTemporaries, FaultsDecide, IsDesired, Below, Retired, WorkSucceeds,
         EndsAsDecided, Decided, ListsAll, IsWriterRef;
    ghost var before := repo.refs;
    PlanNames(graph, inv, passphrase, plan);
    PlansAreClassed(graph, inv, passphrase, plan);
    PlansStayInGraph(graph, inv, passphrase, plan);
    var desired := PrepareScratch(plan, repo.refs, work);
    if desired.None? {
      if forall n :: keep(n) {
        StoppedRun(graph, objects, before, passphrase, mode, work, id, faults, plan, inv);
      }
      NothingDone(graph, id, objects, work, before, before, keep);
      EndsUnprepared(graph, objects, before, passphrase, mode, work, id, faults);
      return Stopped(Preparing);
    }
    PreparesEither(plan, before, work);
    var ending := Promote(repo, graph, objects, passphrase, mode, id, faults, plan, desired.value, keep);
    PreparedIsBacked(graph, objects, inv, passphrase, plan, work, before, before, keep, ExtentOf(ending), id);
    if forall n :: keep(n) {
      EndsPrepared(ending, graph, objects, before, passphrase, mode, work, id, faults, plan, inv, desired.value);
    }
    o := if faults.cleanup then CleanupError(ending) else ending;
    assert Unhidden(o) == ending && ExtentOf(o) == ExtentOf(ending);
  }

  /** All chains that stand in this store can be rewritten together. */
  ghost predicate StandingHistoryRewritable(
    rewriter: W.Rewriter, store: map<Sha, string>, graph: string, objects: Objects, refs: Refs)
  {
    W.CanRewriteAll(
      rewriter.TaskOf(graph, "", store), store,
      StandingChains(graph, objects.ancestry, refs, WriterRefs(graph, objects.ordered(GraphNames(graph, refs)))))
  }

  /** The inventory has the values and the ancestry of the kept refs. */
  ghost predicate SeenAsTheyStand(objects: Objects, inv: Inventory, refs: Refs, keep: RefName -> bool) {
    forall n | keep(n) && n in inv.listing ::
      At(inv.seen, n) == At(refs, n) && RevsAt(inv.revs, n) == Listed(objects, At(refs, n))
  }

  /** The heads given to the kept writer refs end the rewritten chains of the old heads. */
  ghost predicate HeadsCarried(
    graph: string, objects: Objects, before: Refs, after: Refs, rewrites: seq<Rewrite>, keep: RefName -> bool)
  {
    forall n | keep(n) && Below(graph, "writers/", n) && n in before ::
      HeadCarried(rewrites, graph, n, objects.ancestry(before[n]), before[n], At(after, n))
  }

  lemma HeadsFound(
    graph: string, inv: Inventory, passphrase: bool, plan: Plan, objects: Objects, before: Refs, fetched: Refs,
    rewrites: seq<Rewrite>, heads: Refs, keep: RefName -> bool)
    requires Inventoried(graph, inv, passphrase, plan) && SeenAsTheyStand(objects, inv, before, keep)
    requires forall n | keep(n) && InGraph(graph, n) :: n in inv.listing <==> n in before
    requires forall n | keep(n) :: At(fetched, n) == At(before, n)
    requires W.Follow(rewrites, ChainsOf(objects.ancestry, fetched, plan)) && HeadsFollow(plan, rewrites, heads)
    ensures HeadsCarried(graph, objects, before, heads, rewrites, keep)
  {
    hide Inventoried, InGraph, Below, HeadCarried, W.Follow, HeadsFollow, ChainsOf, Classify;
    forall n | keep(n) && Below(graph, "writers/", n) && n in before
      ensures HeadCarried(rewrites, graph, n, objects.ancestry(before[n]), before[n], At(heads, n))
    {
      WritersLieInTheGraph(graph, n);
      ClassifyIgnoresOrder(graph, n);
      assert At(fetched, n) == At(before, n) == Some(before[n]);
      assert RevsAt(inv.revs, n) == Some(objects.ancestry(before[n]));
      PlannedHeadIsCarried(graph, inv, passphrase, plan, objects.ancestry, fetched, rewrites, heads, n);
    }
  }

  lemma NoHeads(graph: string, inv: Inventory, passphrase: bool, plan: Plan)
    requires Inventoried(graph, inv, passphrase, plan)
    ensures exists n :: IsWriterRef(plan, n)
  {
    assert IsWriterRef(plan, plan.writers[0].refName);
  }

  lemma HeadsOfAStillStore(
    graph: string, objects: Objects, refs: Refs, passphrase: bool, plan: Plan, inv: Inventory, work: ScratchWork,
    rewritten: bool)
    requires ListsAll(objects) && Inventoried(graph, inv, passphrase, plan)
    requires if rewritten then forall n | IsWriterRef(plan, n) :: n in work.heads else work.heads == map[]
    ensures inv == InventoryOf(graph, objects, refs) ==> (HasHeads(graph, refs, work) <==> rewritten)
  {
    hide Inventoried, Classify, Below, IsWriterRef;
    if inv == InventoryOf(graph, objects, refs) {
      forall n
        ensures IsWriterRef(plan, n) <==> n in refs && Below(graph, "writers/", n)
      {
        PlannedNames(graph, inv, passphrase, plan, n);
        ClassifyIgnoresOrder(graph, n);
        WritersLieInTheGraph(graph, n);
        assert n in inv.listing <==> n in GraphNames(graph, refs);
      }
      NoHeads(graph, inv, passphrase, plan);
    }
  }

  lemma PlannedHistory(
    rewriter: W.Rewriter, store: map<Sha, string>, graph: string, objects: Objects, refs: Refs, passphrase: bool,
    plan: Plan, inv: Inventory)
    requires Inventoried(graph, inv, passphrase, plan)
    ensures inv == InventoryOf(graph, objects, refs) ==>
              (HistoryRewritable(rewriter, store, graph, objects.ancestry, refs, plan)
               <==> StandingHistoryRewritable(rewriter, store, graph, objects, refs))
  {
    hide Inventoried, ChainsOf, StandingChains, WriterRefs, W.CanRewriteAll;
    PlannedChainsStand(graph, inv, passphrase, plan, objects.ancestry, refs);
  }

  /** No foreign process writes the graph's writer refs. */
  ghost predicate KeepsWriters(graph: string, keep: RefName -> bool) {
    forall n | Below(graph, "writers/", n) :: keep(n)
  }

  /** Chains of kept writers are the planned ones, so content alone can stop their rewrite. */
  lemma BlockedOnKeptWriters(
    graph: string, inv: Inventory, passphrase: bool, plan: Plan, t: W.Task, store: map<Sha, string>, objects: Objects,
    before: Refs, fetched: Refs, error: W.RewriteError, keep: RefName -> bool)
    requires Inventoried(graph, inv, passphrase, plan) && SeenAsTheyStand(objects, inv, before, keep)
    requires forall n | keep(n) && InGraph(graph, n) :: n in inv.listing <==> n in before
    requires forall n | keep(n) :: At(fetched, n) == At(before, n)
    requires t.graph == graph && BlockedAtAWriter(t, store, objects.ancestry, fetched, plan, error)
    ensures KeepsWriters(graph, keep) && ReadsAlike(t.read, inv.read, objects.ancestry) ==>
              BlockedByContent(t, store, objects.ancestry, before, error)
  {
    hide Inventoried, InGraph, Below, Classify, ReadsAlike, BlockedAtAWriter, WriterRefs, W.Explains, OfContent;
    if KeepsWriters(graph, keep) && ReadsAlike(t.read, inv.read, objects.ancestry) {
      WriterRefsSay(graph, inv.listing);
      forall n | n in WriterRefs(graph, inv.listing)
        ensures n in fetched && Below(graph, "writers/", n) && inv.RevList(n) == objects.ancestry(fetched[n])
      {
        ClassifyIgnoresOrder(graph, n);
        WritersLieInTheGraph(graph, n);
        assert keep(n) && n in inv.listing && n in before;
        assert At(fetched, n) == At(before, n) == Some(before[n]);
        assert RevsAt(inv.revs, n) == Some(objects.ancestry(before[n]));
      }
      PlannedRewritesFailOnContentOnly(graph, inv, passphrase, plan, t, store, objects.ancestry, fetched, error);
      BlockedSince(t, store, objects, before, fetched, error, keep);
    }
  }

  lemma BlockedSince(
    t: W.Task, store: map<Sha, string>, objects: Objects, before: Refs, later: Refs, error: W.RewriteError,
    keep: RefName -> bool)
    requires KeepsWriters(t.graph, keep) && forall n | keep(n) :: At(later, n) == At(before, n)
    requires BlockedByContent(t, store, objects.ancestry, later, error)
    ensures BlockedByContent(t, store, objects.ancestry, before, error)
  {
    hide Below, W.Explains, OfContent, WriterOf;
    var n :| && n in later && Below(t.graph, "writers/", n)
             && W.Explains(t.(writer := WriterOf(t.graph, n)), store, objects.ancestry(later[n]), error);
    assert At(later, n) == At(before, n) == Some(later[n]);
  }

  /** Fetches the planned refs, rewrites every writer, and goes on with the heads that gave. */
  method Migrate(
    repo: Repository, rewriter: W.Rewriter, graph: string, objects: Objects, passphrase: bool, mode: Mode,
    work: ScratchWork, id: string, faults: RunFaults, plan: Plan, ghost inv: Inventory, ghost keep: RefName -> bool)
    returns (o: Outcome, done: ScratchWork, rewritten: Result<seq<Rewrite>, W.RewriteError>)
    requires ListsAll(objects) && PublishesDerived(graph, work) && Ready(rewriter, objects.ancestry)
    requires Inventoried(graph, inv, passphrase, plan)
    requires forall a, b | 0 <= a < b < |inv.listing| :: inv.listing[a] != inv.listing[b]
    requires forall n | n in inv.listing :: InGraph(graph, n)
    requires forall n | keep(n) && InGraph(graph, n) :: n in inv.listing <==> n in repo.refs
    requires SeenAsTheyStand(objects, inv, repo.refs, keep) && inv.read == objects.read
    modifies repo, rewriter
    ensures done == work.(heads := done.heads)
    ensures forall n | keep(n) && !IsImportName(id, n) ::
              EndsAt(ExtentOf(o), n, At(old(repo.refs), n), At(repo.refs, n))
    ensures Backed(ExtentOf(o), graph, id, objects, done, old(repo.refs), keep)
    ensures !o.AlreadyCurrent? && !o.NothingThere? && Plain(o)
    ensures !ExtentOf(o).Untouched? ==>
              && rewritten.Success?
              && HistoryCarried(W.ReaderOf(old(rewriter.objects), rewriter.decode),
                                W.ReaderOf(rewriter.objects, rewriter.decode), graph, rewritten.value,
                                rewriter.commitMap)
              && HeadsCarried(graph, objects, old(repo.refs), done.heads, rewritten.value, keep)
    ensures rewritten.Failure? && KeepsWriters(graph, keep)
            && ReadsAlike(W.ReaderOf(old(rewriter.objects), rewriter.decode), objects.read, objects.ancestry) ==>
              BlockedByContent(rewriter.TaskOf(graph, "", old(rewriter.objects)), rewriter.objects, objects.ancestry,
                               old(repo.refs), rewritten.error)
    ensures (forall n :: keep(n)) && !faults.planning && NeedsMigration(graph, objects, old(repo.refs), passphrase)
            && inv == InventoryOf(graph, objects, old(repo.refs)) ==>
              && EndsAsDecided(o, graph, objects, old(repo.refs), passphrase, mode, done, id, faults)
              && (HasHeads(graph, old(repo.refs), done)
                  <==> StandingHistoryRewritable(rewriter, old(rewriter.objects), graph, objects, old(repo.refs)))
  {
    hide IsImportName, InGraph, NeedsMigration, Inventoried, InventoryOf, Backed, EndsAt, EndsAsDecided, Below,
         HistoryRewritable, StandingHistoryRewritable, HistoryCarried, HeadsCarried, HasHeads, ExtentOfResult,
         W.ReaderOf, SeenAsTheyStand, AllCarried, MapsRewrites, W.KeepsExactlyTheCurrentPrefixes, Agrees, HeadsFollow,
         DistinctWriters, W.Follow, BlockedByContent, BlockedAtAWriter, ReadsAlike, KeepsWriters;
    ghost var before := repo.refs;
    repo.Foreign(keep);
    ghost var fetched := repo.refs;
    KeptStore(before, fetched, keep);
    PlansHaveDistinctWriters(graph, inv, passphrase, plan);
    var heads;
    rewritten, heads := RewriteHeads(rewriter, graph, plan, objects.ancestry, repo.refs);
    done := work.(heads := heads);
    if rewritten.Success? {
      HeadsFound(graph, inv, passphrase, plan, objects, before, fetched, rewritten.value, heads, keep);
      HeadsForAll(plan, rewritten.value, heads);
    } else {
      NoHeads(graph, inv, passphrase, plan);
      BlockedOnKeptWriters(graph, inv, passphrase, plan, rewriter.TaskOf(graph, "", old(rewriter.objects)),
                           rewriter.objects, objects, before, fetched, rewritten.error, keep);
    }
    if forall n :: keep(n) {
      HeadsOfAStillStore(graph, objects, before, passphrase, plan, inv, done, rewritten.Success?);
      PlannedHistory(rewriter, old(rewriter.objects), graph, objects, before, passphrase, plan, inv);
    }
    o := PrepareAndPromote(repo, graph, objects, passphrase, mode, done, id, faults, plan, inv, keep);
    BackedSince(ExtentOf(o), graph, id, objects, done, before, fetched, keep);
  }

  lemma NothingDone(
    graph: string, id: string, objects: Objects, work: ScratchWork, before: Refs, after: Refs, keep: RefName -> bool)
    requires forall n | keep(n) :: At(after, n) == At(before, n)
    ensures Backed(Untouched, graph, id, objects, work, before, keep)
    ensures forall n | keep(n) :: EndsAt(Untouched, n, At(before, n), At(after, n))
  {
  }

  lemma EndsUnprepared(
    graph: string, objects: Objects, refs: Refs, passphrase: bool, mode: Mode, work: ScratchWork, id: string,
    faults: RunFaults)
    ensures !WorkSucceeds(graph, refs, work) ==>
              EndsAsDecided(Stopped(Preparing), graph, objects, refs, passphrase, mode, work, id, faults)
  {
    hide NeedsMigration, WorkSucceeds;
  }

  lemma PreparesEither(plan: Plan, source: Refs, work: ScratchWork)
    requires Prepares(plan, source, work)
    ensures forall n | IsWriterRef(plan, n) :: n in work.heads
    ensures work.seed.None? ==> work.published.Some?
  {
  }

  lemma StoppedRun(
    graph: string, objects: Objects, refs: Refs, passphrase: bool, mode: Mode, work: ScratchWork, id: string,
    faults: RunFaults, plan: Plan, inv: Inventory)
    requires ListsAll(objects) && Inventoried(graph, inv, passphrase, plan)
    requires !Prepares(plan, refs, work)
    ensures inv == InventoryOf(graph, objects, refs) ==>
              !ReachesPromotion(graph, objects, refs, passphrase, mode, work, id, faults)
              && !WorkSucceeds(graph, refs, work)
  {
    hide Inventoried, Prepares, WorkSucceeds, InventoryOf, NeedsMigration, ArchiveIsFree, RecoveryPrefix, StateCacheRef;
    if inv == InventoryOf(graph, objects, refs) {
      PreparesOnStillRefs(graph, objects, refs, passphrase, plan, work);
    }
  }

  lemma PromotedRun(
    graph: string, objects: Objects, refs: Refs, passphrase: bool, mode: Mode, work: ScratchWork, id: string,
    faults: RunFaults, plan: Plan, inv: Inventory, desired: Refs)
    requires ListsAll(objects) && Inventoried(graph, inv, passphrase, plan) && PublishesDerived(graph, work)
    requires work.seed.None? ==> work.published.Some?
    requires Prepares(plan, refs, work) && IsDesired(plan, refs, work, desired)
    requires PlannedInGraph(plan) && plan.graph == graph
    requires forall n | n in desired :: InSources(graph, n)
    ensures inv == InventoryOf(graph, objects, refs) && !faults.planning
            && NeedsMigration(graph, objects, refs, passphrase) ==>
              && WorkSucceeds(graph, refs, work)
              && (DeletesTemporaries(graph, refs, work, id, faults) <==> DeletesImports(id, desired, faults.finalizing))
              && (ReachesPromotion(graph, objects, refs, passphrase, mode, work, id, faults)
                  <==> PromotionReached(plan, objects, refs, mode, id, desired, faults))
  {
    hide InGraph, Below, Inventoried, InventoryOf, NeedsMigration, WorkSucceeds, Prepares, SourceRefs, SourcesOf,
         ArchiveIsFree, RecoveryPrefix, StateCacheRef, PayloadsOf, PayloadsToArchive, GoesThrough, ImportRef, Wanted,
         DesiredAt, ValidRecoveryId, ListsAll;
    if inv == InventoryOf(graph, objects, refs) {
      PreparesOnStillRefs(graph, objects, refs, passphrase, plan, work);
      PreparesEither(plan, refs, work);
      PlanTakesAllSources(graph, objects, refs, passphrase, plan);
      OnlyTheArchiveBlocks(
        refs, graph, id, desired, PayloadsOf(objects, graph, SourcesOf(graph, refs)), faults.finalizing);
      StillDesired(graph, objects, refs, passphrase, plan, work, desired);
    }
  }

  /** What decides the promotion decides the run. */
  lemma EndsPrepared(
    ending: Outcome, graph: string, objects: Objects, refs: Refs, passphrase: bool, mode: Mode, work: ScratchWork,
    id: string, faults: RunFaults, plan: Plan, inv: Inventory, desired: Refs)
    requires ListsAll(objects) && Inventoried(graph, inv, passphrase, plan) && PublishesDerived(graph, work)
    requires work.seed.None? ==> work.published.Some?
    requires Prepares(plan, refs, work) && IsDesired(plan, refs, work, desired)
    requires PlannedInGraph(plan) && plan.graph == graph
    requires forall n | n in desired :: InSources(graph, n)
    requires !ending.CleanupError? && (ending.VerifiedDryRun? <==> mode.Rehearse?)
    requires Inventoried(graph, InventoryOf(graph, objects, refs), passphrase, plan)
             && NeedsMigration(graph, objects, refs, passphrase) ==>
               FaultsDecide(ending, PromotionReached(plan, objects, refs, mode, id, desired, faults),
                            DeletesImports(id, desired, faults.finalizing), faults)
    ensures inv == InventoryOf(graph, objects, refs) && !faults.planning
            && NeedsMigration(graph, objects, refs, passphrase) ==>
              EndsAsDecided(if faults.cleanup then CleanupError(ending) else ending, graph, objects, refs, passphrase,
                            mode, work, id, faults)
  {
    hide ListsAll, Inventoried, PublishesDerived, Prepares, IsDesired, PlannedInGraph, InSources, InventoryOf,
         NeedsMigration, PromotionReached, DeletesImports, ReachesPromotion, DeletesTemporaries, WorkSucceeds;
    PromotedRun(graph, objects, refs, passphrase, mode, work, id, faults, plan, inv, desired);
  }

  lemma StillDesired(
    graph: string, objects: Objects, refs: Refs, passphrase: bool, plan: Plan, work: ScratchWork, desired: Refs)
    requires ListsAll(objects) && PublishesDerived(graph, work)
    requires Inventoried(graph, InventoryOf(graph, objects, refs), passphrase, plan)
    requires work.seed.None? ==> work.published.Some?
    requires IsDesired(plan, refs, work, desired)
    ensures forall n | InSources(graph, n) :: At(desired, n) == Wanted(graph, At(refs, n), work, n)
  {
    hide InGraph, Below, Inventoried, Wanted, DesiredAt, PublishesDerived;
    var inv := InventoryOf(graph, objects, refs);
    forall n | InSources(graph, n)
      ensures At(desired, n) == Wanted(graph, At(refs, n), work, n)
    {
      assert n in inv.listing <==> n in GraphNames(graph, refs);
      DesiredIsWanted(graph, inv, passphrase, plan, work, At(refs, n), n);
    }
  }

  lemma BackedSince(
    e: Extent, graph: string, id: string, objects: Objects, work: ScratchWork, before: Refs, planned: Refs,
    keep: RefName -> bool)
    requires forall n | keep(n) :: At(planned, n) == At(before, n)
    requires Backed(e, graph, id, objects, work, planned, keep)
    ensures Backed(e, graph, id, objects, work, before, keep)
  {
    hide InGraph, Below, Wanted, ArchivesAll;
    assert forall n | keep(n) :: n in before <==> At(before, n).Some?;
    assert forall n | keep(n) :: n in planned <==> At(planned, n).Some?;
  }

  lemma MigratedIsCurrent(
    o: Outcome, graph: string, id: string, work: ScratchWork, objects: Objects, before: Refs, after: Refs,
    keep: RefName -> bool)
    requires o.Migrated? && Accounted(ExtentOf(o), graph, id, work, before, after, keep)
    ensures keep(MarkerRef(graph)) && work.marker.Some? && work.marker.value in objects.markers && ValidGraphName(graph)
            ==> IsCurrent(graph, objects, after)
  {
    hide MarkerRef, Wanted, InSources, ArchiveRef, RecoveryPrefix;
    MarkerIsWanted(graph, At(before, MarkerRef(graph)), work);
  }

  /** A run that never came to migrate ends as decided. */
  lemma NeverMigrated(
    o: Outcome, graph: string, objects: Objects, refs: Refs, passphrase: bool, mode: Mode, work: ScratchWork,
    id: string, faults: RunFaults)
    requires o.Stopped? || o.AlreadyCurrent? || o.NothingThere?
    requires faults.planning || !NeedsMigration(graph, objects, refs, passphrase)
    ensures EndsAsDecided(o, graph, objects, refs, passphrase, mode, work, id, faults)
  {
    hide NeedsMigration, WorkSucceeds;
  }

  lemma WritersAreWanted(graph: string, before: Option<Oid>, work: ScratchWork, n: RefName)
    requires work.seed.None? ==> work.published.Some?
    requires Below(graph, "writers/", n)
    ensures InSources(graph, n)
    ensures before.Some? ==> Wanted(graph, before, work, n) == At(work.heads, n)
  {
    hide Classify;
    ClassifyIgnoresOrder(graph, n);
    WritersLieInTheGraph(graph, n);
  }

  /** Promoted writer refs stand at the rewritten heads. */
  lemma HeadsPromoted(
    e: Extent, graph: string, id: string, work: ScratchWork, objects: Objects, before: Refs, after: Refs,
    rewrites: seq<Rewrite>, keep: RefName -> bool)
    requires e.PromotedTo? && Accounted(e, graph, id, work, before, after, keep)
    requires HeadsCarried(graph, objects, before, work.heads, rewrites, keep)
    ensures HeadsCarried(graph, objects, before, after, rewrites, keep)
  {
    hide InSources, Below, Wanted, InGraph, HeadCarried, ArchiveRef, RecoveryPrefix, IsImportName;
    forall n | keep(n) && Below(graph, "writers/", n) && n in before
      ensures At(after, n) == At(work.heads, n)
    {
      WritersAreWanted(graph, At(before, n), work, n);
    }
  }

  lemma HeadsSince(
    graph: string, objects: Objects, before: Refs, planned: Refs, after: Refs, rewrites: seq<Rewrite>,
    keep: RefName -> bool)
    requires forall n | keep(n) :: At(planned, n) == At(before, n)
    requires HeadsCarried(graph, objects, planned, after, rewrites, keep)
    ensures HeadsCarried(graph, objects, before, after, rewrites, keep)
  {
    hide Below, HeadCarried;
    forall n | keep(n) && Below(graph, "writers/", n) && n in before
      ensures HeadCarried(rewrites, graph, n, objects.ancestry(before[n]), before[n], At(after, n))
    {
      assert At(planned, n) == At(before, n) == Some(before[n]);
    }
  }

  lemma StillPublishesDerived(graph: string, work: ScratchWork, done: ScratchWork)
    requires PublishesDerived(graph, work) && done == work.(heads := done.heads)
    ensures PublishesDerived(graph, done)
  {
  }

  /**
   One run of the command, against any foreign writes. Of the names nobody else touched:
   graph refs outside the archive end as the migration wants them or as they were, according
   to the ending; refs that stood there are archived as soon as anything is; old archives and
   refs of other graphs stay. Wherever the migrated refs stand in the end, no history is lost:
   each writer's ref ends a rewritten chain that carries the chain it stood for. With nobody
   else writing, the contract says exactly how each run ends, and that a migrated graph is
   current. `done` is `work` with the heads that the rewriter found. If no foreign process
   writes the writers, a rewrite of what the planner accepted fails on content alone.
   */
  method Run(
    repo: Repository, rewriter: W.Rewriter, graph: string, objects: Objects, passphrase: bool, mode: Mode,
    work: ScratchWork, id: string, faults: RunFaults, ghost keep: RefName -> bool)
    returns (o: Outcome, done: ScratchWork, rewritten: Result<seq<Rewrite>, W.RewriteError>)
    requires ListsAll(objects) && PublishesDerived(graph, work) && Ready(rewriter, objects.ancestry)
    modifies repo, rewriter
    ensures done == work.(heads := done.heads)
    ensures Accounted(ExtentOf(o), graph, id, done, old(repo.refs), repo.refs, keep)
    ensures LeavesByName(o, graph, id, objects, done, old(repo.refs), repo.refs, keep)
    ensures ExtentOf(o).PromotedTo? ==>
              && rewritten.Success?
              && HistoryCarried(W.ReaderOf(old(rewriter.objects), rewriter.decode),
                                W.ReaderOf(rewriter.objects, rewriter.decode), graph, rewritten.value,
                                rewriter.commitMap)
              && HeadsCarried(graph, objects, old(repo.refs), repo.refs, rewritten.value, keep)
    ensures rewritten.Failure? && KeepsWriters(graph, keep)
            && ReadsAlike(W.ReaderOf(old(rewriter.objects), rewriter.decode), objects.read, objects.ancestry) ==>
              BlockedByContent(rewriter.TaskOf(graph, "", old(rewriter.objects)), rewriter.objects, objects.ancestry,
                               old(repo.refs), rewritten.error)
    ensures o.Migrated? && keep(MarkerRef(graph)) && work.marker.Some? && work.marker.value in objects.markers ==>
              IsCurrent(graph, objects, repo.refs)
    ensures (forall n :: keep(n)) ==>
              && EndsAsDecided(o, graph, objects, old(repo.refs), passphrase, mode, done, id, faults)
              && (o.AlreadyCurrent? <==>
                    !faults.planning && !faults.currentCheck && IsCurrent(graph, objects, old(repo.refs)))
              && (o.NothingThere? <==> !faults.planning && IsEmpty(graph, old(repo.refs)))
    ensures (forall n :: keep(n)) && !faults.planning && NeedsMigration(graph, objects, old(repo.refs), passphrase) ==>
              (HasHeads(graph, old(repo.refs), done)
               <==> StandingHistoryRewritable(rewriter, old(rewriter.objects), graph, objects, old(repo.refs)))
  {
    hide IsImportName, InGraph, NeedsMigration, Inventoried, InventoryOf, Backed, EndsAt, EndsAsDecided, Below, Wanted,
         WorkSucceeds, PublishesDerived, MarkerRef, ExtentOfResult, Accounted, ValidGraphName, HeadsCarried, HasHeads,
         HistoryCarried, StandingHistoryRewritable, Ready, W.ReaderOf, BlockedByContent, ReadsAlike, KeepsWriters,
         LeavesByName;
    ghost var before := repo.refs;
    var plan, inv := PlanNow(repo, graph, objects, passphrase, faults.planning, keep);
    ghost var planned := repo.refs;
    KeptStore(before, planned, keep);
    done, rewritten := work, Success([]);
    NothingDone(graph, id, objects, work, before, planned, keep);
    if plan.None? {
      o := Stopped(Planning);
    } else if plan.value.status == Current {
      o := if faults.currentCheck then Stopped(CurrentCheck) else AlreadyCurrent;
    } else if plan.value.status == Empty {
      o := NothingThere;
    } else {
      o, done, rewritten :=
        Migrate(repo, rewriter, graph, objects, passphrase, mode, work, id, faults, plan.value, inv, keep);
      BackedSince(ExtentOf(o), graph, id, objects, done, before, planned, keep);
      if rewritten.Failure? && KeepsWriters(graph, keep)
         && BlockedByContent(rewriter.TaskOf(graph, "", old(rewriter.objects)), rewriter.objects, objects.ancestry,
                             planned, rewritten.error) {
        BlockedSince(rewriter.TaskOf(graph, "", old(rewriter.objects)), rewriter.objects, objects, before, planned,
                     rewritten.error, keep);
      }
    }
    if (forall n :: keep(n)) && (plan.None? || plan.value.status != MigrationRequired) {
      NeverMigrated(o, graph, objects, before, passphrase, mode, work, id, faults);
    }
    RunIsAccounted(ExtentOf(o), graph, id, objects, done, before, repo.refs, keep);
    StillPublishesDerived(graph, work, done);
    RunByName(o, graph, id, objects, done, before, repo.refs, keep);
    if ExtentOf(o).PromotedTo? {
      HeadsSince(graph, objects, before, planned, done.heads, rewritten.value, keep);
      HeadsPromoted(ExtentOf(o), graph, id, done, objects, before, repo.refs, rewritten.value, keep);
    }
    if o.Migrated? {
      MigratedIsCurrent(o, graph, id, done, objects, before, repo.refs, keep);
    }
  }
}
