/**
 V18MigrationFinalizer.ts: import the prepared refs, archive the old ones, promote in one
 transaction, verify, roll back on failure, and delete the imports again.

 Foreign processes may write between any two steps. Each method takes the set of names
 they leave alone, `keep`, and says what happens to exactly those names.
 */
module Finalizer {
  import opened Wrappers
  import opened RefStore
  import opened MigrationPlan
  import opened Promotion

  datatype Finalization = Finalization(promotedRefs: Refs, recoveryPrefix: string, recoveryRefs: Refs)

  datatype Step = RecoveryIdCheck | Importing | Archiving | Promoting

  /** A report or the error that escapes; `masked` is the result a failed cleanup hid. */
  datatype FinalizeResult =
    | Finalized(finalization: Finalization)
    | RolledBackAfter(finalization: Finalization)
    | RollbackIncomplete(finalization: Finalization)
    | StepFailed(step: Step)
    | CleanupFailed(masked: FinalizeResult)

  /** Which Git commands fail for reasons of their own. */
  datatype Faults = Faults(
    imports: set<RefName>, recoveryRead: bool, transaction: bool, verification: bool, rollback: bool,
    importDeletion: set<RefName>)

  // -------------------------------------------------------------------- names

  predicate TokenStart(c: char) { '0' <= c <= '9' || 'A' <= c <= 'Z' || 'a' <= c <= 'z' }

  predicate ValidRecoveryId(id: string) {
    && 1 <= |id| <= 64 && TokenStart(id[0])
    && forall i | 1 <= i < |id| :: TokenStart(id[i]) || id[i] == '.' || id[i] == '_' || id[i] == '-'
  }

  /** A letter or digit, then at most 63 more letters, digits, dots, underscores or dashes. */
  lemma RecoveryIdExactly(id: string)
    ensures ValidRecoveryId(id)
       <==> && id != "" && |id| <= 64 && id[0] !in "._-"
            && forall c | c in id :: 'A' <= c <= 'Z' || 'a' <= c <= 'z' || '0' <= c <= '9' || c in "._-"
  {
    assert forall i | 0 <= i < |id| :: id[i] in id;
    assert id != "" ==> id[0] in id;
  }

  function ImportPrefix(id: string): string { "refs/warp-migration-import/v18-to-v19/" + id + "/" }

  predicate IsImportName(id: string, name: RefName) { ImportPrefix(id) <= name }

  function ImportRef(id: string, name: RefName): RefName {
    ImportPrefix(id) + (if |name| >= |"refs/"| then name[|"refs/"|..] else "")
  }

  function RecoveryPrefix(graph: string, id: string): string {
    GraphPrefix(graph) + "recovery/v18-to-v19/" + id
  }

  function ArchiveRef(graph: string, prefix: string, name: RefName): RefName
    requires InGraph(graph, name)
  {
    prefix + "/refs/" + name[|GraphPrefix(graph)|..]
  }

  function PayloadRef(prefix: string, oid: Oid): RefName {
    prefix + "/retained-payloads/" + oid
  }

  lemma InGraphStartsWithRefs(graph: string, name: RefName)
    requires InGraph(graph, name)
    ensures |name| >= 10 && name[..10] == "refs/warp/" && name[..5] == "refs/"
  {
    var p := GraphPrefix(graph);
    assert p == "refs/warp/" + (graph + "/");
    assert p[..10] == "refs/warp/";
    assert name[..10] == p[..10];
    assert name[..5] == "refs/warp/"[..5];
  }

  lemma ImportNameIsNotInGraph(graph: string, id: string, name: RefName)
    requires InGraph(graph, name)
    ensures !IsImportName(id, name)
  {
    InGraphStartsWithRefs(graph, name);
    assert ImportPrefix(id)[9] == '-';
    assert name[..10][9] == '/';
  }

  lemma ImportRefIsAnImportName(id: string, name: RefName)
    ensures IsImportName(id, ImportRef(id, name))
  {
  }

  lemma ImportRefSpelled(graph: string, id: string, name: RefName)
    requires InGraph(graph, name)
    ensures |name| >= 5 && name[..5] == "refs/"
    ensures ImportRef(id, name) == "refs/warp-migration-import/v18-to-v19/" + id + "/" + name[5..]
  {
    InGraphStartsWithRefs(graph, name);
  }

  lemma ImportRefInjective(graph: string, id: string, a: RefName, b: RefName)
    requires InGraph(graph, a) && InGraph(graph, b)
    requires ImportRef(id, a) == ImportRef(id, b)
    ensures a == b
  {
    InGraphStartsWithRefs(graph, a);
    InGraphStartsWithRefs(graph, b);
    assert ImportRef(id, a)[|ImportPrefix(id)|..] == a[5..];
    assert ImportRef(id, b)[|ImportPrefix(id)|..] == b[5..];
    assert a == a[..5] + a[5..] && b == b[..5] + b[5..];
  }

  lemma ArchiveRefInjective(graph: string, prefix: string, a: RefName, b: RefName)
    requires InGraph(graph, a) && InGraph(graph, b)
    requires ArchiveRef(graph, prefix, a) == ArchiveRef(graph, prefix, b)
    ensures a == b
  {
    var p, start := GraphPrefix(graph), prefix + "/refs/";
    assert ArchiveRef(graph, prefix, a)[|start|..] == a[|p|..];
    assert ArchiveRef(graph, prefix, b)[|start|..] == b[|p|..];
    assert a == p + a[|p|..] && b == p + b[|p|..];
  }

  lemma PayloadRefInjective(prefix: string, a: Oid, b: Oid)
    requires PayloadRef(prefix, a) == PayloadRef(prefix, b)
    ensures a == b
  {
    var start := prefix + "/retained-payloads/";
    assert PayloadRef(prefix, a)[|start|..] == a && PayloadRef(prefix, b)[|start|..] == b;
  }

  lemma ArchivesAreApart(graph: string, prefix: string, name: RefName, oid: Oid)
    requires InGraph(graph, name)
    ensures ArchiveRef(graph, prefix, name) != PayloadRef(prefix, oid)
  {
    assert ArchiveRef(graph, prefix, name)[|prefix| + 3] == "/refs/"[3] == 'f';
    assert PayloadRef(prefix, oid)[|prefix| + 3] == "/retained-payloads/"[3] == 't';
  }

  // -------------------------------------------------------------- source refs

  function WriterHeads(writers: seq<WriterPlan>): Refs {
    if writers == [] then map[]
    else
      var last := writers[|writers| - 1];
      WriterHeads(writers[..|writers| - 1])[last.refName := last.head]
  }

  /** Every planned ref with its inventoried value. */
  function SourceRefs(plan: Plan): Refs {
    plan.derivedRefs + plan.preservedRefs + WriterHeads(plan.writers)
  }

  /** `sourceRefsFor` */
  method SourceRefsFor(plan: Plan) returns (refs: Refs)
    ensures refs == SourceRefs(plan)
  {
    refs := plan.derivedRefs + plan.preservedRefs;
    for k := 0 to |plan.writers|
      invariant refs == plan.derivedRefs + plan.preservedRefs + WriterHeads(plan.writers[..k])
    {
      assert plan.writers[..k + 1][..k] == plan.writers[..k];
      refs := refs[plan.writers[k].refName := plan.writers[k].head];
    }
    assert plan.writers[..|plan.writers|] == plan.writers;
  }

  lemma {:induction false} WriterHeadsSay(writers: seq<WriterPlan>)
    ensures forall n :: n in WriterHeads(writers) <==> exists k | 0 <= k < |writers| :: writers[k].refName == n
    ensures forall n | n in WriterHeads(writers) ::
              exists k :: 0 <= k < |writers| && writers[k].refName == n && writers[k].head == WriterHeads(writers)[n]
  {
    if writers != [] {
      var front := writers[..|writers| - 1];
      WriterHeadsSay(front);
      assert forall k | 0 <= k < |front| :: front[k] == writers[k];
      forall n
        ensures n in WriterHeads(writers) <==> exists k | 0 <= k < |writers| :: writers[k].refName == n
        ensures n in WriterHeads(writers) ==>
                  exists k :: 0 <= k < |writers| && writers[k].refName == n && writers[k].head == WriterHeads(writers)[n]
      {
        var last := writers[|writers| - 1];
        if n == last.refName {
          assert writers[|writers| - 1].refName == n;
        } else if n in WriterHeads(front) {
          var k :| 0 <= k < |front| && front[k].refName == n && front[k].head == WriterHeads(front)[n];
          assert writers[k].refName == n;
        }
      }
    }
  }

  lemma HeadsAreTheInventory(graph: string, inv: Inventory, passphrase: bool, plan: Plan, n: RefName)
    requires Inventoried(graph, inv, passphrase, plan)
    ensures n in WriterHeads(plan.writers) <==> n in inv.listing && Classify(graph, n) == WriterRef
    ensures n in WriterHeads(plan.writers) ==> n in inv.seen && WriterHeads(plan.writers)[n] == inv.seen[n]
  {
    hide Classify;
    WriterHeadsSay(plan.writers);
    WriterRefsSay(graph, inv.listing);
    var refs := WriterRefs(graph, inv.listing);
    if n in refs {
      var k :| 0 <= k < |refs| && refs[k] == n;
      assert plan.writers[k].refName == n;
    }
    if n in WriterHeads(plan.writers) {
      var k :| 0 <= k < |plan.writers| && plan.writers[k].refName == n
               && plan.writers[k].head == WriterHeads(plan.writers)[n];
      assert refs[k] == n;
    }
  }

  /** The transaction expects, for every listed ref but the archived ones, the value the inventory saw. */
  lemma SourceRefsAreTheInventory(graph: string, inv: Inventory, passphrase: bool, plan: Plan)
    requires Inventoried(graph, inv, passphrase, plan)
    ensures forall n :: n in SourceRefs(plan) <==> n in inv.listing && Classify(graph, n) != RecoveryRef
    ensures forall n | n in SourceRefs(plan) :: n in inv.seen && SourceRefs(plan)[n] == inv.seen[n]
  {
    hide Classify;
    forall n
      ensures n in SourceRefs(plan) <==> n in inv.listing && Classify(graph, n) != RecoveryRef
      ensures n in SourceRefs(plan) ==> n in inv.seen && SourceRefs(plan)[n] == inv.seen[n]
    {
      HeadsAreTheInventory(graph, inv, passphrase, plan, n);
      if n in inv.listing {
        assert Filable(graph, inv, n);
      }
    }
  }

  // ------------------------------------------------------------ import, delete

  /** The temporary refs that hold the prepared objects. */
  ghost predicate IsImport(id: string, desired: Refs, imported: Refs) {
    && (forall n | n in desired :: ImportRef(id, n) in imported && imported[ImportRef(id, n)] == desired[n])
    && (forall m | m in imported :: exists n :: n in desired && m == ImportRef(id, n))
  }

  /** Fetching a ref from the scratch repository works and gives this value. */
  predicate Fetches(scratch: Refs, faults: set<RefName>, name: RefName, oid: Oid) {
    name !in faults && At(scratch, name) == Some(oid)
  }

  predicate FetchesAll(scratch: Refs, faults: set<RefName>, desired: Refs) {
    forall n | n in desired :: Fetches(scratch, faults, n, desired[n])
  }

  lemma FetchesEntryByEntry(scratch: Refs, faults: set<RefName>, desired: Refs, entries: seq<(RefName, Oid)>)
    requires Enumerates(entries, desired)
    ensures FetchesAll(scratch, faults, desired)
       <==> forall j | 0 <= j < |entries| :: Fetches(scratch, faults, entries[j].0, entries[j].1)
  {
    hide Fetches;
    assert forall n | n in desired :: Seen(entries, |entries|, n);
  }

  /** Fetches every prepared ref from the scratch repository under its temporary name. */
  method ImportPreparedRefs(
    repo: Repository, graph: string, desired: Refs, scratch: Refs, id: string, faults: set<RefName>,
    ghost keep: RefName -> bool)
    returns (imported: Option<Refs>)
    requires forall n | n in desired :: InGraph(graph, n)
    modifies repo
    ensures forall n | keep(n) && !IsImportName(id, n) :: At(repo.refs, n) == At(old(repo.refs), n)
    ensures imported.Some? ==> IsImport(id, desired, imported.value)
    ensures imported.Some? ==>
              forall n | n in imported.value && keep(n) :: At(repo.refs, n) == Some(imported.value[n])
    ensures (forall n :: keep(n)) ==>
              (imported.Some? <==> FetchesAll(scratch, faults, desired))
  {
    hide ImportRef, IsImportName, InGraph, IsImport, FetchesAll, ImportedUpTo, Enumerates;
    ghost var quiet := forall n :: keep(n);
    var done: Refs := map[];
    var entries := SortedEntries(desired);
    FetchesEntryByEntry(scratch, faults, desired, entries);
    ImportedNone(id, entries);
    for i := 0 to |entries|
      invariant forall n | keep(n) && !IsImportName(id, n) :: At(repo.refs, n) == At(old(repo.refs), n)
      invariant ImportedUpTo(id, entries, i, done)
      invariant forall m | m in done && keep(m) :: At(repo.refs, m) == Some(done[m])
      invariant quiet ==> forall j | 0 <= j < i :: Fetches(scratch, faults, entries[j].0, entries[j].1)
    {
      var name, expected := entries[i].0, entries[i].1;
      var importRef := ImportRef(id, name);
      ImportRefIsAnImportName(id, name);
      var imports := ImportRefOnce(repo, importRef, if name in faults then None else At(scratch, name), expected, keep);
      if !imports {
        return None;
      }
      ImportedOneMore(graph, id, desired, entries, i, done);
      done := done[importRef := expected];
    }
    EntriesImported(id, desired, entries, done);
    imported := Some(done);
  }

  /** Fetch one ref, then read it back; `value` is what the fetch finds, if it works. */
  method ImportRefOnce(
    repo: Repository, importRef: RefName, value: Option<Oid>, expected: Oid, ghost keep: RefName -> bool)
    returns (ok: bool)
    modifies repo
    ensures forall n | keep(n) && n != importRef :: At(repo.refs, n) == At(old(repo.refs), n)
    ensures ok && keep(importRef) ==> At(repo.refs, importRef) == Some(expected)
    ensures keep(importRef) ==> (ok <==> value == Some(expected))
  {
    repo.Foreign(keep);
    if value.None? {
      return false;
    }
    repo.Fetch(importRef, value.value);
    repo.Foreign(keep);
    var actual := repo.Read(importRef);
    ok := actual == Some(expected);
  }

  lemma ImportedNone(id: string, entries: seq<(RefName, Oid)>)
    ensures ImportedUpTo(id, entries, 0, map[])
  {
  }

  /** The record of finished imports after `i` entries. */
  ghost predicate ImportedUpTo(id: string, entries: seq<(RefName, Oid)>, i: nat, done: Refs)
    requires i <= |entries|
  {
    && (forall j | 0 <= j < i ::
          ImportRef(id, entries[j].0) in done && done[ImportRef(id, entries[j].0)] == entries[j].1)
    && (forall m | m in done :: exists j :: 0 <= j < i && m == ImportRef(id, entries[j].0))
  }

  lemma ImportedOneMore(
    graph: string, id: string, desired: Refs, entries: seq<(RefName, Oid)>, i: nat, done: Refs)
    requires i < |entries| && Enumerates(entries, desired) && ImportedUpTo(id, entries, i, done)
    requires forall n | n in desired :: InGraph(graph, n)
    ensures ImportedUpTo(id, entries, i + 1, done[ImportRef(id, entries[i].0) := entries[i].1])
  {
    hide ImportRef;
    forall j | 0 <= j < i
      ensures ImportRef(id, entries[j].0) != ImportRef(id, entries[i].0)
    {
      if ImportRef(id, entries[j].0) == ImportRef(id, entries[i].0) {
        ImportRefInjective(graph, id, entries[j].0, entries[i].0);
      }
    }
  }

  lemma EntriesImported(id: string, desired: Refs, entries: seq<(RefName, Oid)>, done: Refs)
    requires Enumerates(entries, desired) && ImportedUpTo(id, entries, |entries|, done)
    ensures IsImport(id, desired, done)
  {
    hide ImportRef;
    assert forall n | n in desired :: Seen(entries, |entries|, n);
  }

  /** Deletes each temporary ref by compare-and-swap; stops at the first failure. */
  method DeleteImportRefs(
    repo: Repository, imported: Refs, faults: set<RefName>, ghost keep: RefName -> bool) returns (ok: bool)
    modifies repo
    ensures forall n | keep(n) && n !in imported :: At(repo.refs, n) == At(old(repo.refs), n)
    ensures ok ==> forall n | n in imported && keep(n) :: n !in repo.refs
    ensures (forall n | n in imported :: keep(n) && At(old(repo.refs), n) == Some(imported[n])) ==>
              (ok <==> imported.Keys !! faults)
  {
    var todo := imported.Keys;
    while todo != {}
      invariant todo <= imported.Keys
      invariant forall n | keep(n) && (n !in imported || n in todo) :: At(repo.refs, n) == At(old(repo.refs), n)
      invariant forall n | keep(n) && n in imported && n !in todo :: n !in repo.refs
      invariant (forall n | n in imported :: keep(n) && At(old(repo.refs), n) == Some(imported[n])) ==>
                  forall n | n in imported && n !in todo :: n !in faults
      decreases |todo|
    {
      var name :| name in todo;
      repo.Foreign(keep);
      var deleted := repo.DeleteRef(name, imported[name], name in faults);
      if !deleted {
        return false;
      }
      todo := todo - {name};
    }
    ok := true;
  }

  // ------------------------------------------------------------------ archive

  /** The archive: every source ref under its own name, and the retained payload roots. */
  ghost predicate IsArchive(graph: string, prefix: string, source: Refs, payloads: set<Oid>, recovery: Refs)
    requires forall n | n in source :: InGraph(graph, n)
  {
    && (forall n | n in source ::
          ArchiveRef(graph, prefix, n) in recovery && recovery[ArchiveRef(graph, prefix, n)] == source[n])
    && (forall o | o in payloads :: PayloadRef(prefix, o) in recovery && recovery[PayloadRef(prefix, o)] == o)
    && (forall m | m in recovery ::
          (exists n :: n in source && m == ArchiveRef(graph, prefix, n))
          || (exists o :: o in payloads && m == PayloadRef(prefix, o)))
  }

  /** There is only one archive of given refs. */
  lemma ArchiveUnique(graph: string, prefix: string, source: Refs, payloads: set<Oid>, a: Refs, b: Refs)
    requires forall n | n in source :: InGraph(graph, n)
    requires IsArchive(graph, prefix, source, payloads, a) && IsArchive(graph, prefix, source, payloads, b)
    ensures a == b
  {
    forall m | m in a
      ensures m in b && b[m] == a[m]
    {
    }
    forall m | m in b
      ensures m in a
    {
    }
  }

  /** The payload roots the state cache names; without a state cache there are none. */
  function PayloadsToArchive(graph: string, source: Refs, payloads: Option<set<Oid>>): set<Oid> {
    if StateCacheRef(graph) in source && payloads.Some? then payloads.value else {}
  }

  /**
   Every source ref stands in the archive below `refs/`, and every payload root that the state
   cache names below `retained-payloads/`, under its own object name; no other root does.
   */
  ghost predicate FullArchive(
    graph: string, prefix: string, source: Refs, payloads: Option<set<Oid>>, recovery: Refs)
  {
    var cached := "refs/warp/" + graph + "/state-cache" in source;
    && (forall n | n in source && |"refs/warp/" + graph + "/"| <= |n| ::
          At(recovery, prefix + "/refs/" + n[|"refs/warp/" + graph + "/"|..]) == Some(source[n]))
    && (cached ==> payloads.Some?)
    && forall o :: At(recovery, prefix + "/retained-payloads/" + o)
                   == if cached && o in payloads.value then Some(o) else None
  }

  lemma ArchiveIsFull(
    graph: string, prefix: string, source: Refs, payloads: Option<set<Oid>>, recovery: Refs)
    requires forall n | n in source :: InGraph(graph, n)
    requires StateCacheRef(graph) in source ==> payloads.Some?
    requires IsArchive(graph, prefix, source, PayloadsToArchive(graph, source, payloads), recovery)
    ensures FullArchive(graph, prefix, source, payloads, recovery)
  {
    assert StateCacheRef(graph) == "refs/warp/" + graph + "/state-cache";
    var roots := PayloadsToArchive(graph, source, payloads);
    forall n | n in source
      ensures At(recovery, prefix + "/refs/" + n[|"refs/warp/" + graph + "/"|..]) == Some(source[n])
    {
      assert ArchiveRef(graph, prefix, n) == prefix + "/refs/" + n[|"refs/warp/" + graph + "/"|..];
    }
    forall o
      ensures At(recovery, prefix + "/retained-payloads/" + o) == if o in roots then Some(o) else None
    {
      PayloadAlone(graph, prefix, source, roots, recovery, o);
    }
  }

  /** A payload name in an archive is there for its own root. */
  lemma PayloadAlone(graph: string, prefix: string, source: Refs, roots: set<Oid>, recovery: Refs, o: Oid)
    requires forall n | n in source :: InGraph(graph, n)
    requires IsArchive(graph, prefix, source, roots, recovery)
    ensures At(recovery, prefix + "/retained-payloads/" + o) == if o in roots then Some(o) else None
  {
    var m := PayloadRef(prefix, o);
    if m in recovery && o !in roots {
      forall n | n in source
        ensures m != ArchiveRef(graph, prefix, n)
      {
        ArchivesAreApart(graph, prefix, n, o);
      }
      var other :| other in roots && m == PayloadRef(prefix, other);
      PayloadRefInjective(prefix, o, other);
      assert false;
    }
  }

  /** `buildRecoveryRefs`; `payloads` is what reading the state cache gave, or its failure. */
  method BuildRecoveryRefs(
    repo: Repository, graph: string, source: Refs, prefix: string, payloads: Option<set<Oid>>, readFault: bool,
    ghost keep: RefName -> bool)
    returns (recovery: Option<Refs>)
    requires forall n | n in source :: InGraph(graph, n)
    modifies repo
    ensures forall n | keep(n) :: At(repo.refs, n) == At(old(repo.refs), n)
    ensures recovery.Some? ==>
              && IsArchive(graph, prefix, source, PayloadsToArchive(graph, source, payloads), recovery.value)
              && FullArchive(graph, prefix, source, payloads, recovery.value)
    ensures (forall n :: keep(n)) ==>
              (recovery.Some? <==>
                 && (StateCacheRef(graph) in source ==> payloads.Some?)
                 && ArchiveIsFree(old(repo.refs), graph, prefix, source, PayloadsToArchive(graph, source, payloads))
                 && !readFault)
  {
    hide ArchiveRef, PayloadRef, StateCacheRef, InGraph, FullArchive, IsArchive, ArchiveIsFree;
    if StateCacheRef(graph) in source && payloads.None? {
      return None;
    }
    var archive := NameArchive(graph, source, prefix, PayloadsToArchive(graph, source, payloads));
    if readFault {
      return None;
    }
    FreeMeansAbsent(repo.refs, graph, prefix, source, PayloadsToArchive(graph, source, payloads), archive);
    var entries := SortedEntries(archive);
    for i := 0 to |entries|
      invariant forall n | keep(n) :: At(repo.refs, n) == At(old(repo.refs), n)
      invariant (forall n :: keep(n)) ==> forall j | 0 <= j < i :: entries[j].0 !in old(repo.refs)
    {
      repo.Foreign(keep);
      var existing := repo.Read(entries[i].0);
      if existing.Some? {
        return None;
      }
    }
    assert forall n | n in archive :: Seen(entries, |entries|, n);
    ArchiveIsFull(graph, prefix, source, payloads, archive);
    recovery := Some(archive);
  }

  /** No ref stands where the archive would go. */
  ghost predicate ArchiveIsFree(refs: Refs, graph: string, prefix: string, source: Refs, payloads: set<Oid>)
    requires forall n | n in source :: InGraph(graph, n)
  {
    && (forall n | n in source :: ArchiveRef(graph, prefix, n) !in refs)
    && (forall o | o in payloads :: PayloadRef(prefix, o) !in refs)
  }

  lemma FreeMeansAbsent(refs: Refs, graph: string, prefix: string, source: Refs, payloads: set<Oid>, archive: Refs)
    requires forall n | n in source :: InGraph(graph, n)
    requires IsArchive(graph, prefix, source, payloads, archive)
    ensures ArchiveIsFree(refs, graph, prefix, source, payloads) <==> forall m | m in archive :: m !in refs
  {
    hide InGraph, ArchiveRef, PayloadRef;
  }

  method NameArchive(graph: string, source: Refs, prefix: string, payloads: set<Oid>) returns (archive: Refs)
    requires forall n | n in source :: InGraph(graph, n)
    ensures IsArchive(graph, prefix, source, payloads, archive)
  {
    hide ArchiveRef, PayloadRef, InGraph;
    archive := NameSource(graph, source, prefix);
    var todo := payloads;
    while todo != {}
      invariant todo <= payloads
      invariant IsArchive(graph, prefix, source, payloads - todo, archive)
      decreases |todo|
    {
      var oid :| oid in todo;
      archive := AddPayload(graph, source, prefix, payloads - todo, oid, archive);
      assert payloads - (todo - {oid}) == (payloads - todo) + {oid};
      todo := todo - {oid};
    }
    assert payloads - {} == payloads;
  }

  method NameSource(graph: string, source: Refs, prefix: string) returns (archive: Refs)
    requires forall n | n in source :: InGraph(graph, n)
    ensures IsArchive(graph, prefix, source, {}, archive)
  {
    hide ArchiveRef, PayloadRef, InGraph;
    archive := map[];
    var entries := SortedEntries(source);
    for i := 0 to |entries|
      invariant ArchivedUpTo(graph, prefix, source, entries, i, archive)
    {
      ArchivedOneMore(graph, prefix, source, entries, i, archive);
      archive := archive[ArchiveRef(graph, prefix, entries[i].0) := entries[i].1];
    }
    EntriesArchived(graph, prefix, source, entries, archive);
  }

  ghost predicate ArchivedUpTo(
    graph: string, prefix: string, source: Refs, entries: seq<(RefName, Oid)>, i: nat, archive: Refs)
    requires Enumerates(entries, source) && i <= |entries|
    requires forall n | n in source :: InGraph(graph, n)
  {
    && (forall j | 0 <= j < i ::
          && ArchiveRef(graph, prefix, entries[j].0) in archive
          && archive[ArchiveRef(graph, prefix, entries[j].0)] == entries[j].1)
    && (forall m | m in archive :: exists j :: 0 <= j < i && m == ArchiveRef(graph, prefix, entries[j].0))
  }

  lemma ArchivedOneMore(
    graph: string, prefix: string, source: Refs, entries: seq<(RefName, Oid)>, i: nat, archive: Refs)
    requires Enumerates(entries, source) && i < |entries|
    requires forall n | n in source :: InGraph(graph, n)
    requires ArchivedUpTo(graph, prefix, source, entries, i, archive)
    ensures ArchivedUpTo(graph, prefix, source, entries, i + 1,
                         archive[ArchiveRef(graph, prefix, entries[i].0) := entries[i].1])
  {
    hide ArchiveRef, InGraph;
    forall j | 0 <= j < i
      ensures ArchiveRef(graph, prefix, entries[j].0) != ArchiveRef(graph, prefix, entries[i].0)
    {
      if ArchiveRef(graph, prefix, entries[j].0) == ArchiveRef(graph, prefix, entries[i].0) {
        ArchiveRefInjective(graph, prefix, entries[j].0, entries[i].0);
      }
    }
  }

  lemma EntriesArchived(
    graph: string, prefix: string, source: Refs, entries: seq<(RefName, Oid)>, archive: Refs)
    requires Enumerates(entries, source)
    requires forall n | n in source :: InGraph(graph, n)
    requires ArchivedUpTo(graph, prefix, source, entries, |entries|, archive)
    ensures IsArchive(graph, prefix, source, {}, archive)
  {
    hide ArchiveRef, PayloadRef, InGraph;
    assert forall n | n in source :: Seen(entries, |entries|, n);
  }

  method AddPayload(
    graph: string, ghost source: Refs, prefix: string, ghost payloads: set<Oid>, oid: Oid, archive: Refs)
    returns (more: Refs)
    requires forall n | n in source :: InGraph(graph, n)
    requires IsArchive(graph, prefix, source, payloads, archive)
    ensures IsArchive(graph, prefix, source, payloads + {oid}, more)
  {
    more := archive[PayloadRef(prefix, oid) := oid];
    forall n | n in source
      ensures ArchiveRef(graph, prefix, n) != PayloadRef(prefix, oid)
    {
      ArchivesAreApart(graph, prefix, n, oid);
    }
    forall o | o in payloads && PayloadRef(prefix, o) == PayloadRef(prefix, oid)
      ensures o == oid
    {
      PayloadRefInjective(prefix, o, oid);
    }
  }

  // -------------------------------------------------- transaction and rollback

  method ApplyRefTransaction(repo: Repository, source: Refs, desired: Refs, recovery: Refs, fault: bool)
    returns (ok: bool)
    modifies repo
    ensures ok <==> !fault && CanPromote(old(repo.refs), source, desired, recovery)
    ensures repo.refs == if ok then Promoted(old(repo.refs), source, desired, recovery) else old(repo.refs)
  {
    var commands := PromotionCommands(source, desired, recovery);
    PromotionApplies(repo.refs, commands, source, desired, recovery);
    ok := repo.Transact(commands, fault);
  }

  /** Reverses a promotion; refused as a whole if a promoted or retired ref has changed. */
  method RollbackMigration(repo: Repository, plan: Plan, finalization: Finalization, fault: bool) returns (ok: bool)
    modifies repo
    ensures ok <==> !fault && CanRollBack(old(repo.refs), SourceRefs(plan), finalization.promotedRefs)
    ensures repo.refs == if ok then RolledBack(old(repo.refs), SourceRefs(plan), finalization.promotedRefs)
                         else old(repo.refs)
  {
    var source := SourceRefsFor(plan);
    var commands := RollbackCommands(source, finalization.promotedRefs);
    RollbackApplies(repo.refs, commands, source, finalization.promotedRefs);
    ok := repo.Transact(commands, fault);
  }

  /** The refs read as promoted. */
  ghost predicate ReadsPromoted(refs: Refs, source: Refs, desired: Refs) {
    && (forall n | n in desired :: At(refs, n) == Some(desired[n]))
    && (forall n | n in source && n !in desired :: n !in refs)
  }

  method VerifyPromotedRefs(
    repo: Repository, source: Refs, desired: Refs, fault: bool, ghost keep: RefName -> bool) returns (ok: bool)
    modifies repo
    ensures forall n | keep(n) :: At(repo.refs, n) == At(old(repo.refs), n)
    ensures (forall n | Touched(source, desired, n) :: keep(n)) ==>
              (ok <==> !fault && ReadsPromoted(old(repo.refs), source, desired))
  {
    if fault {
      return false;
    }
    assert forall n | n in desired || n in source :: Touched(source, desired, n);
    ok := VerifyDesired(repo, desired, keep);
    if ok {
      ok := VerifyRetired(repo, source, desired, keep);
    }
  }

  method VerifyDesired(repo: Repository, desired: Refs, ghost keep: RefName -> bool) returns (ok: bool)
    modifies repo
    ensures forall n | keep(n) :: At(repo.refs, n) == At(old(repo.refs), n)
    ensures (forall n | n in desired :: keep(n)) ==>
              (ok <==> forall n | n in desired :: At(old(repo.refs), n) == Some(desired[n]))
  {
    var todo := desired.Keys;
    while todo != {}
      invariant todo <= desired.Keys
      invariant forall n | keep(n) :: At(repo.refs, n) == At(old(repo.refs), n)
      invariant forall n | n in desired && n !in todo && keep(n) :: At(old(repo.refs), n) == Some(desired[n])
      decreases |todo|
    {
      var name :| name in todo;
      repo.Foreign(keep);
      var value := repo.Read(name);
      if value != Some(desired[name]) {
        return false;
      }
      todo := todo - {name};
    }
    ok := true;
  }

  method VerifyRetired(repo: Repository, source: Refs, desired: Refs, ghost keep: RefName -> bool) returns (ok: bool)
    modifies repo
    ensures forall n | keep(n) :: At(repo.refs, n) == At(old(repo.refs), n)
    ensures (forall n | n in source :: keep(n)) ==>
              (ok <==> forall n | n in source && n !in desired :: n !in old(repo.refs))
  {
    var todo := source.Keys - desired.Keys;
    while todo != {}
      invariant todo <= source.Keys - desired.Keys
      invariant forall n | keep(n) :: At(repo.refs, n) == At(old(repo.refs), n)
      invariant forall n | n in source && n !in desired && n !in todo && keep(n) :: n !in old(repo.refs)
      decreases |todo|
    {
      var name :| name in todo;
      repo.Foreign(keep);
      var value := repo.Read(name);
      if value.Some? {
        return false;
      }
      todo := todo - {name};
    }
    ok := true;
  }

  // ----------------------------------------------------------------- finalize

  /** What a promotion that went through did to one name nobody else touched. */
  ghost predicate PromotedName(
    f: Finalization, source: Refs, n: RefName, before: Option<Oid>, after: Option<Oid>)
  {
    && (n in source ==> before == Some(source[n]))
    && (n in f.promotedRefs && n !in source ==> before == None)
    && (n in f.recoveryRefs ==> before == None && n !in source && n !in f.promotedRefs)
    && after == if n in f.recoveryRefs then Some(f.recoveryRefs[n])
                else if n in f.promotedRefs then Some(f.promotedRefs[n])
                else if n in source then None
                else before
  }

  /** What a promotion that was rolled back left at such a name: its old value, or its archive. */
  ghost predicate ArchivedName(f: Finalization, source: Refs, n: RefName, before: Option<Oid>, after: Option<Oid>) {
    && (n in source ==> before == Some(source[n]))
    && (n in f.recoveryRefs ==> before == None)
    && after == if n in f.recoveryRefs then Some(f.recoveryRefs[n]) else before
  }

  /** What each ending leaves at one name nobody else touched. */
  ghost predicate Leaves(r: FinalizeResult, source: Refs, n: RefName, before: Option<Oid>, after: Option<Oid>) {
    match r
    case Finalized(f) => PromotedName(f, source, n, before, after)
    case RollbackIncomplete(f) => PromotedName(f, source, n, before, after)
    case RolledBackAfter(f) => ArchivedName(f, source, n, before, after)
    case StepFailed(_) => after == before
    case CleanupFailed(masked) => Leaves(masked, source, n, before, after)
  }

  /** The finalization a result speaks of is the prepared refs and the full archive. */
  ghost predicate Reports(
    r: FinalizeResult, graph: string, id: string, source: Refs, desired: Refs, payloads: Option<set<Oid>>)
    requires forall n | n in source :: InGraph(graph, n)
  {
    match r
    case StepFailed(_) => true
    case CleanupFailed(masked) => Reports(masked, graph, id, source, desired, payloads)
    case Finalized(f) => ReportsFinalization(f, graph, id, source, desired, payloads)
    case RolledBackAfter(f) => ReportsFinalization(f, graph, id, source, desired, payloads)
    case RollbackIncomplete(f) => ReportsFinalization(f, graph, id, source, desired, payloads)
  }

  ghost predicate ReportsFinalization(
    f: Finalization, graph: string, id: string, source: Refs, desired: Refs, payloads: Option<set<Oid>>)
    requires forall n | n in source :: InGraph(graph, n)
  {
    && f.promotedRefs == desired && f.recoveryPrefix == RecoveryPrefix(graph, id)
    && IsArchive(graph, f.recoveryPrefix, source, PayloadsToArchive(graph, source, payloads), f.recoveryRefs)
    && FullArchive(graph, "refs/warp/" + graph + "/recovery/v18-to-v19/" + id, source, payloads, f.recoveryRefs)
  }

  lemma RecoveryPrefixSays(graph: string, id: string)
    ensures RecoveryPrefix(graph, id) == "refs/warp/" + graph + "/recovery/v18-to-v19/" + id
  {
    assert "refs/warp/" + graph + "/" + "recovery/v18-to-v19/" + id
           == "refs/warp/" + graph + ("/" + "recovery/v18-to-v19/") + id;
  }

  /** The result a failed cleanup hid, or the result itself. */
  function Unmasked(r: FinalizeResult): FinalizeResult {
    if r.CleanupFailed? then r.masked else r
  }

  /** Once the refs are promoted, the verification and the rollback decide between three endings. */
  ghost predicate EndsByFaults(r: FinalizeResult, promoted: bool, faults: Faults) {
    && (r.Finalized? <==> promoted && !faults.verification)
    && (r.RolledBackAfter? <==> promoted && faults.verification && !faults.rollback)
    && (r.RollbackIncomplete? <==> promoted && faults.verification && faults.rollback)
  }

  /** With nobody else writing, exactly these stores and faults let the transaction through. */
  ghost predicate GoesThrough(
    refs: Refs, graph: string, id: string, source: Refs, desired: Refs, payloads: Option<set<Oid>>, faults: Faults)
    requires forall n | n in source :: InGraph(graph, n)
  {
    && (StateCacheRef(graph) in source ==> payloads.Some?)
    && !faults.recoveryRead && !faults.transaction
    && exists archive ::
         && IsArchive(graph, RecoveryPrefix(graph, id), source, PayloadsToArchive(graph, source, payloads), archive)
         && CanPromote(refs, source, desired, archive)
  }

  /** Archive, promote, verify, and roll back if the verification fails. */
  method PromoteImported(
    repo: Repository, plan: Plan, source: Refs, desired: Refs, id: string, payloads: Option<set<Oid>>,
    faults: Faults, ghost keep: RefName -> bool)
    returns (r: FinalizeResult)
    requires source == SourceRefs(plan) && forall n | n in source :: InGraph(plan.graph, n)
    modifies repo
    ensures forall n | keep(n) :: Leaves(r, source, n, At(old(repo.refs), n), At(repo.refs, n))
    ensures Reports(r, plan.graph, id, source, desired, payloads)
    ensures !r.CleanupFailed?
    ensures r.StepFailed? ==> r.step == Archiving || r.step == Promoting
    ensures (forall n :: keep(n)) ==>
              EndsByFaults(r, GoesThrough(old(repo.refs), plan.graph, id, source, desired, payloads, faults), faults)
  {
    hide ArchiveRef, PayloadRef, StateCacheRef, InGraph, RecoveryPrefix, SourceRefs, CanPromote, FullArchive;
    var graph := plan.graph;
    var prefix := RecoveryPrefix(graph, id);
    RecoveryPrefixSays(graph, id);
    ghost var before := repo.refs;
    var recovery := BuildRecoveryRefs(repo, graph, source, prefix, payloads, faults.recoveryRead, keep);
    ArchiveBlocks(before, graph, prefix, source, desired, PayloadsToArchive(graph, source, payloads));
    if recovery.None? {
      return StepFailed(Archiving);
    }
    TheArchive(before, graph, prefix, source, desired, PayloadsToArchive(graph, source, payloads), recovery.value);
    ghost var start := repo.refs;
    KeptStore(before, start, keep);
    r := PromoteArchived(repo, plan, source, Finalization(desired, prefix, recovery.value), faults, keep);
  }

  /** The transaction, its verification, and the rollback if that fails. */
  method PromoteArchived(
    repo: Repository, plan: Plan, source: Refs, f: Finalization, faults: Faults, ghost keep: RefName -> bool)
    returns (r: FinalizeResult)
    requires source == SourceRefs(plan)
    modifies repo
    ensures forall n | keep(n) :: Leaves(r, source, n, At(old(repo.refs), n), At(repo.refs, n))
    ensures r == Finalized(f) || r == RolledBackAfter(f) || r == RollbackIncomplete(f) || r == StepFailed(Promoting)
    ensures (forall n :: keep(n)) ==>
              EndsByFaults(r, !faults.transaction && CanPromote(old(repo.refs), source, f.promotedRefs, f.recoveryRefs),
                           faults)
  {
    hide SourceRefs;
    ghost var before := repo.refs;
    repo.Foreign(keep);
    ghost var start := repo.refs;
    var applied := ApplyRefTransaction(repo, source, f.promotedRefs, f.recoveryRefs, faults.transaction);
    KeptStore(before, start, keep);
    KeptTransaction(before, start, source, f, keep);
    if !applied {
      return StepFailed(Promoting);
    }
    ghost var promoted := repo.refs;
    var verified := VerifyPromotedRefs(repo, source, f.promotedRefs, faults.verification, keep);
    KeptStore(promoted, repo.refs, keep);
    PromotedReadsPromoted(start, source, f.promotedRefs, f.recoveryRefs);
    if verified {
      return Finalized(f);
    }
    repo.Foreign(keep);
    ghost var end := repo.refs;
    KeptStore(promoted, end, keep);
    RollbackLeavesTheArchive(start, source, f.promotedRefs, f.recoveryRefs);
    var undone := RollbackMigration(repo, plan, f, faults.rollback);
    if !undone {
      return RollbackIncomplete(f);
    }
    UndoneNames(before, promoted, end, source, f, keep);
    r := RolledBackAfter(f);
  }

  lemma UndoneNames(
    before: Refs, promoted: Refs, end: Refs, source: Refs, f: Finalization, keep: RefName -> bool)
    requires forall n | keep(n) :: PromotedName(f, source, n, At(before, n), At(promoted, n))
    requires forall n | keep(n) :: At(end, n) == At(promoted, n)
    requires CanRollBack(end, source, f.promotedRefs)
    ensures forall n | keep(n) ::
              ArchivedName(f, source, n, At(before, n), At(RolledBack(end, source, f.promotedRefs), n))
  {
  }

  /** An occupied archive name makes the transaction impossible. */
  lemma ArchiveBlocks(refs: Refs, graph: string, prefix: string, source: Refs, desired: Refs, payloads: set<Oid>)
    requires forall n | n in source :: InGraph(graph, n)
    ensures (exists a :: IsArchive(graph, prefix, source, payloads, a) && CanPromote(refs, source, desired, a))
            ==> ArchiveIsFree(refs, graph, prefix, source, payloads)
  {
    hide ArchiveRef, PayloadRef, InGraph;
  }

  lemma TheArchive(
    refs: Refs, graph: string, prefix: string, source: Refs, desired: Refs, payloads: set<Oid>, archive: Refs)
    requires forall n | n in source :: InGraph(graph, n)
    requires IsArchive(graph, prefix, source, payloads, archive)
    ensures (exists a :: IsArchive(graph, prefix, source, payloads, a) && CanPromote(refs, source, desired, a))
       <==> CanPromote(refs, source, desired, archive)
  {
    forall a | IsArchive(graph, prefix, source, payloads, a)
      ensures a == archive
    {
      ArchiveUnique(graph, prefix, source, payloads, a, archive);
    }
  }

  /** With every name kept, nothing has changed. */
  lemma KeptStore(before: Refs, later: Refs, keep: RefName -> bool)
    requires forall n | keep(n) :: At(later, n) == At(before, n)
    ensures (forall n :: keep(n)) ==> later == before
  {
    if forall n :: keep(n) {
      SameEverywhere(later, before);
    }
  }

  /** What the transaction did from `start`, said of the names kept since `before`. */
  lemma KeptTransaction(before: Refs, start: Refs, source: Refs, f: Finalization, keep: RefName -> bool)
    requires forall n | keep(n) :: At(start, n) == At(before, n)
    ensures CanPromote(start, source, f.promotedRefs, f.recoveryRefs) ==>
              forall n | keep(n) ::
                PromotedName(f, source, n, At(before, n),
                             At(Promoted(start, source, f.promotedRefs, f.recoveryRefs), n))
  {
  }

  lemma PromotedReadsPromoted(refs: Refs, source: Refs, desired: Refs, recovery: Refs)
    requires CanPromote(refs, source, desired, recovery)
    ensures ReadsPromoted(Promoted(refs, source, desired, recovery), source, desired)
  {
  }

  /** Every planned ref lies in the graph and outside its archive. */
  ghost predicate PlannedInGraph(plan: Plan) {
    forall n | n in SourceRefs(plan) :: InGraph(plan.graph, n) && !Below(plan.graph, "recovery/", n)
  }

  lemma PlansStayInGraph(graph: string, inv: Inventory, passphrase: bool, plan: Plan)
    requires Inventoried(graph, inv, passphrase, plan)
    requires forall n | n in inv.listing :: InGraph(graph, n)
    ensures PlannedInGraph(plan)
  {
    SourceRefsAreTheInventory(graph, inv, passphrase, plan);
    forall n | n in SourceRefs(plan)
      ensures !Below(graph, "recovery/", n)
    {
      ClassifyIgnoresOrder(graph, n);
    }
  }

  /** Archives lie in the graph, so no archive name is an import name. */
  lemma ArchiveInGraph(graph: string, id: string, source: Refs, payloads: set<Oid>, archive: Refs)
    requires forall n | n in source :: InGraph(graph, n)
    requires IsArchive(graph, RecoveryPrefix(graph, id), source, payloads, archive)
    ensures forall m | m in archive :: InGraph(graph, m) && Below(graph, "recovery/", m)
  {
    var prefix := RecoveryPrefix(graph, id);
    assert prefix == GraphPrefix(graph) + "recovery/" + ("v18-to-v19/" + id);
    forall m | m in archive
      ensures InGraph(graph, m) && Below(graph, "recovery/", m)
    {
      assert prefix <= m;
    }
  }

  /** Import refs decide nothing about the promotion. */
  lemma ImportsDoNotMatter(
    a: Refs, b: Refs, graph: string, id: string, source: Refs, desired: Refs, payloads: Option<set<Oid>>,
    faults: Faults)
    requires forall n | n in source || n in desired :: InGraph(graph, n)
    requires forall n | !IsImportName(id, n) :: At(a, n) == At(b, n)
    ensures GoesThrough(a, graph, id, source, desired, payloads, faults)
            ==> GoesThrough(b, graph, id, source, desired, payloads, faults)
  {
    if GoesThrough(a, graph, id, source, desired, payloads, faults) {
      var archive :|
        && IsArchive(graph, RecoveryPrefix(graph, id), source, PayloadsToArchive(graph, source, payloads), archive)
        && CanPromote(a, source, desired, archive);
      ArchiveInGraph(graph, id, source, PayloadsToArchive(graph, source, payloads), archive);
      SamePromotion(a, b, graph, id, source, desired, archive);
    }
  }

  lemma SamePromotion(a: Refs, b: Refs, graph: string, id: string, source: Refs, desired: Refs, archive: Refs)
    requires forall n | n in source || n in desired || n in archive :: InGraph(graph, n)
    requires forall n | !IsImportName(id, n) :: At(a, n) == At(b, n)
    requires CanPromote(a, source, desired, archive)
    ensures CanPromote(b, source, desired, archive)
  {
    hide InGraph, IsImportName;
    forall n | n in source || n in desired || n in archive
      ensures At(a, n) == At(b, n)
    {
      ImportNameIsNotInGraph(graph, id, n);
    }
  }

  /** Every temporary ref can be deleted again. */
  ghost predicate DeletesImports(id: string, desired: Refs, faults: Faults) {
    forall n | n in desired :: ImportRef(id, n) !in faults.importDeletion
  }

  /** Atomically archives the old refs and promotes the prepared ones. */
  method FinalizeMigration(
    repo: Repository, plan: Plan, desired: Refs, scratch: Refs, id: string, payloads: Option<set<Oid>>,
    faults: Faults, ghost keep: RefName -> bool)
    returns (r: FinalizeResult)
    requires PlannedInGraph(plan) && forall n | n in desired :: InGraph(plan.graph, n)
    modifies repo
    ensures forall n | keep(n) && !IsImportName(id, n) ::
              Leaves(r, SourceRefs(plan), n, At(old(repo.refs), n), At(repo.refs, n))
    ensures Reports(r, plan.graph, id, SourceRefs(plan), desired, payloads)
    ensures r.CleanupFailed? ==> !r.masked.CleanupFailed?
    ensures !r.CleanupFailed? && r != StepFailed(RecoveryIdCheck) && r != StepFailed(Importing) ==>
              forall n | n in desired && keep(ImportRef(id, n)) :: ImportRef(id, n) !in repo.refs
    ensures (forall n :: keep(n)) ==>
              var imports := ValidRecoveryId(id) && FetchesAll(scratch, faults.imports, desired);
              var source := SourceRefs(plan);
              var promoted := imports && GoesThrough(old(repo.refs), plan.graph, id, source, desired, payloads, faults);
              && EndsByFaults(Unmasked(r), promoted, faults)
              && (r.CleanupFailed? <==> imports && !DeletesImports(id, desired, faults))
  {
    if !ValidRecoveryId(id) {
      return StepFailed(RecoveryIdCheck);
    }
    hide ImportRef, IsImportName, InGraph, SourceRefs, ValidRecoveryId, GoesThrough, Reports, Leaves, FetchesAll, IsImport;
    var source := SourceRefsFor(plan);
    ghost var before := repo.refs;
    var imported := ImportPreparedRefs(repo, plan.graph, desired, scratch, id, faults.imports, keep);
    if imported.None? {
      FailedEarly(Importing, plan, id, desired, payloads, before, repo.refs, keep);
      return StepFailed(Importing);
    }
    ghost var during := repo.refs;
    ImportNames(id, desired, imported.value, faults.importDeletion);
    r := PromoteAndDeleteImports(repo, plan, source, desired, imported.value, id, payloads, faults, keep);
    LeavesSince(r, source, id, before, during, repo.refs, keep);
    if forall n :: keep(n) {
      ImportsDoNotMatter(before, during, plan.graph, id, source, desired, payloads, faults);
      ImportsDoNotMatter(during, before, plan.graph, id, source, desired, payloads, faults);
    }
  }

  lemma ImportNames(id: string, desired: Refs, imported: Refs, faulty: set<RefName>)
    requires IsImport(id, desired, imported)
    ensures forall n | n in imported :: IsImportName(id, n)
    ensures forall n | n in desired :: ImportRef(id, n) in imported
    ensures imported.Keys !! faulty <==> forall n | n in desired :: ImportRef(id, n) !in faulty
  {
    hide ImportRef, IsImportName;
    forall n | n in imported
      ensures IsImportName(id, n)
    {
      var m :| m in desired && n == ImportRef(id, m);
      ImportRefIsAnImportName(id, m);
    }
  }

  /** The `try` block and its `finally`: promote, then delete the imports whatever happened. */
  method PromoteAndDeleteImports(
    repo: Repository, plan: Plan, source: Refs, desired: Refs, imported: Refs, id: string,
    payloads: Option<set<Oid>>, faults: Faults, ghost keep: RefName -> bool)
    returns (r: FinalizeResult)
    requires source == SourceRefs(plan) && PlannedInGraph(plan) && forall n | n in desired :: InGraph(plan.graph, n)
    requires IsImport(id, desired, imported)
    modifies repo
    ensures forall n | keep(n) && !IsImportName(id, n) :: Leaves(r, source, n, At(old(repo.refs), n), At(repo.refs, n))
    ensures Reports(r, plan.graph, id, source, desired, payloads)
    ensures r.CleanupFailed? ==> !r.masked.CleanupFailed?
    ensures r != StepFailed(RecoveryIdCheck) && r != StepFailed(Importing)
    ensures !r.CleanupFailed? ==> forall n | n in imported && keep(n) :: n !in repo.refs
    ensures (forall n :: keep(n)) && (forall n | n in imported :: At(old(repo.refs), n) == Some(imported[n])) ==>
              && EndsByFaults(Unmasked(r), GoesThrough(old(repo.refs), plan.graph, id, source, desired, payloads, faults),
                              faults)
              && (r.CleanupFailed? <==> !(imported.Keys !! faults.importDeletion))
  {
    hide ImportRef, IsImportName, InGraph, SourceRefs, GoesThrough, Reports, Leaves, IsImport;
    ghost var during := repo.refs;
    var inner := PromoteImported(repo, plan, source, desired, id, payloads, faults, keep);
    ghost var after := repo.refs;
    var cleaned := DeleteImportRefs(repo, imported, faults.importDeletion, keep);
    ImportsAreApart(plan, desired, id, payloads, imported, inner);
    LeavesThrough(inner, source, id, imported, during, after, repo.refs, keep);
    if forall n :: keep(n) {
      ImportsSurvive(inner, source, imported, during, after);
    }
    r := inner;
    if !cleaned {
      r := CleanupFailed(inner);
      MaskedLeaves(inner, plan, source, desired, id, payloads, during, repo.refs, keep);
    }
  }

  /** A failed cleanup leaves and reports what the result it hides does. */
  lemma MaskedLeaves(
    r: FinalizeResult, plan: Plan, source: Refs, desired: Refs, id: string, payloads: Option<set<Oid>>, before: Refs,
    end: Refs, keep: RefName -> bool)
    requires forall n | n in source :: InGraph(plan.graph, n)
    requires Reports(r, plan.graph, id, source, desired, payloads)
    requires forall n | keep(n) && !IsImportName(id, n) :: Leaves(r, source, n, At(before, n), At(end, n))
    ensures Reports(CleanupFailed(r), plan.graph, id, source, desired, payloads)
    ensures forall n | keep(n) && !IsImportName(id, n) ::
              Leaves(CleanupFailed(r), source, n, At(before, n), At(end, n))
  {
    hide InGraph, IsImportName;
  }

  /** The names a result concerns, other than the import refs. */
  ghost predicate Concerns(r: FinalizeResult, source: Refs, n: RefName) {
    n in source
    || match r
       case Finalized(f) => n in f.promotedRefs || n in f.recoveryRefs
       case RollbackIncomplete(f) => n in f.promotedRefs || n in f.recoveryRefs
       case RolledBackAfter(f) => n in f.recoveryRefs
       case _ => false
  }

  lemma ImportsAreApart(
    plan: Plan, desired: Refs, id: string, payloads: Option<set<Oid>>, imported: Refs, r: FinalizeResult)
    requires PlannedInGraph(plan) && forall n | n in desired :: InGraph(plan.graph, n)
    requires IsImport(id, desired, imported)
    requires !r.CleanupFailed? && Reports(r, plan.graph, id, SourceRefs(plan), desired, payloads)
    ensures forall n | n in imported :: IsImportName(id, n)
    ensures forall n | IsImportName(id, n) :: !Concerns(r, SourceRefs(plan), n)
  {
    hide ImportRef, IsImportName, InGraph, SourceRefs, Below;
    var source := SourceRefs(plan);
    forall n | n in imported
      ensures IsImportName(id, n)
    {
      var m :| m in desired && n == ImportRef(id, m);
      ImportRefIsAnImportName(id, m);
    }
    forall n | Concerns(r, source, n)
      ensures !IsImportName(id, n)
    {
      if !r.StepFailed? {
        ArchiveInGraph(plan.graph, id, source, PayloadsToArchive(plan.graph, source, payloads),
                       r.finalization.recoveryRefs);
      }
      ImportNameIsNotInGraph(plan.graph, id, n);
    }
  }

  /** Cleaning up after does not change what a result leaves elsewhere. */
  lemma LeavesThrough(
    r: FinalizeResult, source: Refs, id: string, imported: Refs, during: Refs, after: Refs, end: Refs,
    keep: RefName -> bool)
    requires forall n | keep(n) :: Leaves(r, source, n, At(during, n), At(after, n))
    requires forall n | keep(n) && n !in imported :: At(end, n) == At(after, n)
    requires forall n | n in imported :: IsImportName(id, n)
    ensures forall n | keep(n) && !IsImportName(id, n) :: Leaves(r, source, n, At(during, n), At(end, n))
  {
    hide IsImportName, Leaves;
  }

  /** Nor does importing before. */
  lemma FailedEarly(
    step: Step, plan: Plan, id: string, desired: Refs, payloads: Option<set<Oid>>, before: Refs, end: Refs,
    keep: RefName -> bool)
    requires PlannedInGraph(plan)
    requires forall n | keep(n) && !IsImportName(id, n) :: At(end, n) == At(before, n)
    ensures forall n | keep(n) && !IsImportName(id, n) ::
              Leaves(StepFailed(step), SourceRefs(plan), n, At(before, n), At(end, n))
    ensures Reports(StepFailed(step), plan.graph, id, SourceRefs(plan), desired, payloads)
  {
    hide IsImportName, SourceRefs;
  }

  lemma LeavesSince(
    r: FinalizeResult, source: Refs, id: string, before: Refs, during: Refs, end: Refs, keep: RefName -> bool)
    requires forall n | keep(n) && !IsImportName(id, n) :: At(during, n) == At(before, n)
    requires forall n | keep(n) && !IsImportName(id, n) :: Leaves(r, source, n, At(during, n), At(end, n))
    ensures forall n | keep(n) && !IsImportName(id, n) :: Leaves(r, source, n, At(before, n), At(end, n))
  {
    hide IsImportName, Leaves;
  }

  /** A result leaves alone every name it does not concern. */
  lemma ImportsSurvive(r: FinalizeResult, source: Refs, imported: Refs, during: Refs, after: Refs)
    requires !r.CleanupFailed?
    requires forall n | n in imported :: !Concerns(r, source, n)
    requires forall n :: Leaves(r, source, n, At(during, n), At(after, n))
    ensures forall n | n in imported :: At(after, n) == At(during, n)
  {
    forall n | n in imported
      ensures At(after, n) == At(during, n)
    {
      assert Leaves(r, source, n, At(during, n), At(after, n));
    }
  }
}
