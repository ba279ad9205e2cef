/**
 V18MigrationPlan.ts: the inventory that files every ref of a graph under one class and
 accepts each writer only with one complete linear chain.
 */
module MigrationPlan {
  import opened Wrappers
  import opened RefStore
  import opened PatchCommits
  import opened WriterChain

  datatype WriterPlan = WriterPlan(
    commitCount: nat, currentCount: nat, encryptedCount: nat, head: Oid, legacyCount: nat,
    refName: RefName, writer: string)

  datatype PlanStatus = Current | Empty | MigrationRequired

  datatype Plan = Plan(
    derivedRefs: Refs, graph: string, markerRef: RefName, preservedRefs: Refs, status: PlanStatus,
    writers: seq<WriterPlan>)

  datatype PlanError =
    | InvalidGraphName
    | UnsupportedMarker
    | UnsupportedRef(name: RefName)
    | RefDisappeared(name: RefName)
    | NotACommit(name: RefName)
    | NoWriterRefs
    | InvalidWriterRef(name: RefName)
    | ChainMismatch(sha: Sha)
    | ChainMissesHead(name: RefName)
    | PassphraseMissing(name: RefName)

  /**
   What the inventory saw. Each ref is read once, at its own moment, and the commits of a
   writer are listed at yet another, so `seen` and `revs` may mix the answers of different
   moments when foreign processes write in between.
   */
  datatype Inventory = Inventory(
    listing: seq<RefName>,
    seen: Refs,
    marker: Option<bool>,
    commits: set<Oid>,
    revs: map<RefName, seq<Sha>>,
    read: Reader)
  {
    /** `rev-list --reverse`, root first; nothing for a ref that is gone. */
    function RevList(name: RefName): seq<Sha> {
      if name in revs then revs[name] else []
    }
  }

  function GraphPrefix(graph: string): string { "refs/warp/" + graph + "/" }

  predicate InGraph(graph: string, name: RefName) { GraphPrefix(graph) <= name }

  predicate Below(graph: string, area: string, name: RefName) { GraphPrefix(graph) + area <= name }

  function CheckpointRef(graph: string): RefName { GraphPrefix(graph) + "checkpoints/head" }

  function CoverageRef(graph: string): RefName { GraphPrefix(graph) + "coverage/head" }

  function StateCacheRef(graph: string): RefName { GraphPrefix(graph) + "state-cache" }

  function MarkerRef(graph: string): RefName { GraphPrefix(graph) + "substrate-version" }

  predicate IsDerivedName(graph: string, name: RefName) {
    name == CheckpointRef(graph) || name == CoverageRef(graph) || name == StateCacheRef(graph)
  }

  predicate IsPreservedName(graph: string, name: RefName) {
    || Below(graph, "audit/", name)
    || Below(graph, "intents/", name)
    || Below(graph, "strand-braids/", name)
    || Below(graph, "strand-overlays/", name)
    || Below(graph, "strands/", name)
    || Below(graph, "trust/", name)
  }

  datatype RefClass = WriterRef | DerivedRef | RetiredCheckpointRef | PreservedRef | RecoveryRef | UnknownRef

  /** The class a ref gets, the tests taken in the order the loop takes them. */
  function Classify(graph: string, name: RefName): RefClass {
    if Below(graph, "writers/", name) then WriterRef
    else if IsDerivedName(graph, name) then DerivedRef
    else if Below(graph, "checkpoints/", name) then RetiredCheckpointRef
    else if IsPreservedName(graph, name) then PreservedRef
    else if Below(graph, "recovery/", name) then RecoveryRef
    else UnknownRef
  }

  /** Two different areas of a graph share no name. */
  lemma AreasAreDisjoint(graph: string, a: string, b: string, name: RefName)
    requires Below(graph, a, name) && Below(graph, b, name)
    ensures a <= b || b <= a
  {
    var p := GraphPrefix(graph);
    assert forall i | 0 <= i < |a| :: (p + a)[|p| + i] == a[i];
    assert forall i | 0 <= i < |b| :: (p + b)[|p| + i] == b[i];
    assert forall i | 0 <= i < |a| :: name[|p| + i] == a[i];
    assert forall i | 0 <= i < |b| :: name[|p| + i] == b[i];
  }

  /**
   The order of the tests is immaterial: a name passes the tests of at most one class,
   except that the checkpoint head also lies among the retired checkpoints, and both are
   derived refs.
   */
  lemma ClassifyIgnoresOrder(graph: string, name: RefName)
    ensures Classify(graph, name) == WriterRef <==> Below(graph, "writers/", name)
    ensures Classify(graph, name) == DerivedRef <==> IsDerivedName(graph, name)
    ensures Classify(graph, name) == RetiredCheckpointRef
       <==> Below(graph, "checkpoints/", name) && name != CheckpointRef(graph)
    ensures Classify(graph, name) == PreservedRef <==> IsPreservedName(graph, name)
    ensures Classify(graph, name) == RecoveryRef <==> Below(graph, "recovery/", name)
  {
    DerivedAreas(graph, name);
    if Below(graph, "writers/", name) {
      InOneArea(graph, name, "writers/");
    }
    if Below(graph, "checkpoints/", name) {
      InOneArea(graph, name, "checkpoints/");
    }
    if Below(graph, "coverage/", name) {
      InOneArea(graph, name, "coverage/");
    }
    if Below(graph, "state-cache", name) {
      InOneArea(graph, name, "state-cache");
    }
    if Below(graph, "recovery/", name) {
      InOneArea(graph, name, "recovery/");
    }
  }

  /** A name below one area lies below none of the other ten. */
  lemma InOneArea(graph: string, name: RefName, area: string)
    requires area in AREAS && Below(graph, area, name)
    ensures Below(graph, "writers/", name) ==> area == "writers/"
    ensures Below(graph, "checkpoints/", name) ==> area == "checkpoints/"
    ensures Below(graph, "coverage/", name) ==> area == "coverage/"
    ensures Below(graph, "state-cache", name) ==> area == "state-cache"
    ensures Below(graph, "recovery/", name) ==> area == "recovery/"
    ensures IsPreservedName(graph, name) ==>
              area !in ["writers/", "checkpoints/", "coverage/", "state-cache", "recovery/"]
  {
    hide Below, IsPreservedName;
    InOneSingleArea(graph, name, area);
    InNoPreservedArea(graph, name, area);
  }

  lemma InOneSingleArea(graph: string, name: RefName, area: string)
    requires area in AREAS && Below(graph, area, name)
    ensures Below(graph, "writers/", name) ==> area == "writers/"
    ensures Below(graph, "checkpoints/", name) ==> area == "checkpoints/"
    ensures Below(graph, "coverage/", name) ==> area == "coverage/"
    ensures Below(graph, "state-cache", name) ==> area == "state-cache"
    ensures Below(graph, "recovery/", name) ==> area == "recovery/"
  {
    hide Below;
    OnlyArea(graph, name, area);
    assert "writers/" in AREAS && "checkpoints/" in AREAS && "coverage/" in AREAS && "state-cache" in AREAS;
    assert "recovery/" in AREAS;
  }

  lemma InNoPreservedArea(graph: string, name: RefName, area: string)
    requires area in AREAS && Below(graph, area, name)
    ensures IsPreservedName(graph, name) ==>
              area !in ["writers/", "checkpoints/", "coverage/", "state-cache", "recovery/"]
  {
    hide Below;
    OnlyArea(graph, name, area);
    assert "audit/" in AREAS && "intents/" in AREAS && "strand-braids/" in AREAS;
    assert "strand-overlays/" in AREAS && "strands/" in AREAS && "trust/" in AREAS;
  }

  /** The top-level areas a planned ref can lie in. */
  const AREAS: seq<string> := [
    "writers/", "checkpoints/", "coverage/", "state-cache", "audit/", "intents/", "strand-braids/",
    "strand-overlays/", "strands/", "trust/", "recovery/"]

  lemma OnlyArea(graph: string, name: RefName, area: string)
    requires area in AREAS
    ensures Below(graph, area, name) ==> forall other | other in AREAS && other != area :: !Below(graph, other, name)
  {
    if Below(graph, area, name) {
      forall other | other in AREAS && other != area
        ensures !Below(graph, other, name)
      {
        if Below(graph, other, name) {
          AreasAreDisjoint(graph, area, other, name);
          NoAreaIsAPrefix(area, other);
        }
      }
    }
  }

  lemma NoAreaIsAPrefix(a: string, b: string)
    requires a in AREAS && b in AREAS && a != b
    ensures !(a <= b) && !(b <= a)
  {
    FirstLettersDiffer(a, b);
  }

  /** Areas differ within the length of the shorter one. */
  lemma FirstLettersDiffer(a: string, b: string)
    requires a in AREAS && b in AREAS && a != b
    ensures exists i :: 0 <= i < |a| && i < |b| && a[i] != b[i]
  {
    if a[0] == b[0] {
      if a[0] == 'c' {
        assert a[1] != b[1];
      } else {
        assert a[0] == 's';
        assert a[|"st"|] != b[|"st"|] || a[|"strand"|] != b[|"strand"|] || a[|"strand-"|] != b[|"strand-"|];
      }
    }
  }

  lemma DerivedAreas(graph: string, name: RefName)
    ensures name == CheckpointRef(graph) ==> Below(graph, "checkpoints/", name)
    ensures name == CoverageRef(graph) ==> Below(graph, "coverage/", name)
    ensures name == StateCacheRef(graph) ==> Below(graph, "state-cache", name)
  {
    var p := GraphPrefix(graph);
    assert CheckpointRef(graph) == p + "checkpoints/" + "head";
    assert CoverageRef(graph) == p + "coverage/" + "head";
  }

  // ---------------------------------------------------------- classification

  /** The inventory can file this ref. */
  predicate Filable(graph: string, inv: Inventory, name: RefName) {
    match Classify(graph, name)
    case WriterRef => true
    case DerivedRef => name in inv.seen
    case RetiredCheckpointRef => name in inv.seen && inv.seen[name] in inv.commits
    case PreservedRef => name in inv.seen && inv.seen[name] in inv.commits
    case RecoveryRef => true
    case UnknownRef => false
  }

  predicate Retired(graph: string, name: RefName) {
    Classify(graph, name) == DerivedRef || Classify(graph, name) == RetiredCheckpointRef
  }

  /** The derived and preserved records hold exactly the listed refs of their class. */
  ghost predicate Files(graph: string, inv: Inventory, listing: seq<RefName>, derived: Refs, preserved: Refs) {
    && (forall n | n in listing :: Filable(graph, inv, n))
    && (forall n :: n in derived <==> n in listing && Retired(graph, n))
    && (forall n :: n in preserved <==> n in listing && Classify(graph, n) == PreservedRef)
    && (forall n | n in derived :: n in inv.seen && derived[n] == inv.seen[n])
    && (forall n | n in preserved :: n in inv.seen && preserved[n] == inv.seen[n])
  }

  function WriterRefs(graph: string, listing: seq<RefName>): seq<RefName> {
    if listing == [] then []
    else
      var last := listing[|listing| - 1];
      WriterRefs(graph, listing[..|listing| - 1]) + (if Classify(graph, last) == WriterRef then [last] else [])
  }

  /** The ref an error names, and what is wrong with it. */
  predicate NotFilable(graph: string, inv: Inventory, error: PlanError) {
    match error
    case UnsupportedRef(n) => n in inv.listing && Classify(graph, n) == UnknownRef
    case RefDisappeared(n) => n in inv.listing && n !in inv.seen
    case NotACommit(n) => n in inv.listing && n in inv.seen && inv.seen[n] !in inv.commits
    case _ => false
  }

  /** Files every listed ref under one class, or names the first one it cannot file. */
  method ClassifyRefs(graph: string, inv: Inventory)
    returns (error: Option<PlanError>, writerRefs: seq<RefName>, derived: Refs, preserved: Refs)
    ensures error.None? <==> forall n | n in inv.listing :: Filable(graph, inv, n)
    ensures error.None? ==>
              writerRefs == WriterRefs(graph, inv.listing) && Files(graph, inv, inv.listing, derived, preserved)
    ensures error.Some? ==> NotFilable(graph, inv, error.value)
  {
    hide Classify;
    writerRefs, derived, preserved := [], map[], map[];
    for k := 0 to |inv.listing|
      invariant writerRefs == WriterRefs(graph, inv.listing[..k])
      invariant Files(graph, inv, inv.listing[..k], derived, preserved)
    {
      var name := inv.listing[k];
      assert name in inv.listing;
      var refClass := Classify(graph, name);
      if refClass == UnknownRef {
        return Some(UnsupportedRef(name)), writerRefs, derived, preserved;
      }
      if refClass != WriterRef && refClass != RecoveryRef && name !in inv.seen {
        return Some(RefDisappeared(name)), writerRefs, derived, preserved;
      }
      if (refClass == RetiredCheckpointRef || refClass == PreservedRef) && inv.seen[name] !in inv.commits {
        return Some(NotACommit(name)), writerRefs, derived, preserved;
      }
      WriterRefsAppend(graph, inv.listing[..k], name);
      FilesOneMore(graph, inv, inv.listing[..k], derived, preserved, name);
      assert inv.listing[..k + 1] == inv.listing[..k] + [name];
      match refClass
      case WriterRef => writerRefs := writerRefs + [name];
      case DerivedRef => derived := derived[name := inv.seen[name]];
      case RetiredCheckpointRef => derived := derived[name := inv.seen[name]];
      case PreservedRef => preserved := preserved[name := inv.seen[name]];
      case RecoveryRef =>
    }
    assert inv.listing[..|inv.listing|] == inv.listing;
    error := None;
  }

  lemma WriterRefsAppend(graph: string, listing: seq<RefName>, name: RefName)
    ensures WriterRefs(graph, listing + [name])
         == WriterRefs(graph, listing) + (if Classify(graph, name) == WriterRef then [name] else [])
  {
    assert (listing + [name])[..|listing|] == listing;
  }

  lemma FilesOneMore(
    graph: string, inv: Inventory, listing: seq<RefName>, derived: Refs, preserved: Refs, name: RefName)
    requires Files(graph, inv, listing, derived, preserved) && Filable(graph, inv, name)
    ensures Files(graph, inv, listing + [name],
                  if Retired(graph, name) then derived[name := inv.seen[name]] else derived,
                  if Classify(graph, name) == PreservedRef then preserved[name := inv.seen[name]] else preserved)
  {
    hide Classify;
  }

  // ------------------------------------------------------------ names, spelled

  /** A name in the given area of a graph. */
  ghost predicate Lies(graph: string, area: string, n: RefName) {
    "refs/warp/" + graph + "/" + area <= n
  }

  /** The checkpoint head, the checkpoints beside it, the coverage head and the state cache. */
  ghost predicate Rebuilt(graph: string, n: RefName) {
    || Lies(graph, "checkpoints/", n)
    || n == "refs/warp/" + graph + "/coverage/head" || n == "refs/warp/" + graph + "/state-cache"
  }

  /** What the trust, audit, intent and strand areas hold is kept by a migration. */
  ghost predicate Retained(graph: string, n: RefName) {
    || Lies(graph, "audit/", n) || Lies(graph, "intents/", n) || Lies(graph, "strand-braids/", n)
    || Lies(graph, "strand-overlays/", n) || Lies(graph, "strands/", n) || Lies(graph, "trust/", n)
  }

  lemma NamesSpelled(graph: string)
    ensures GraphPrefix(graph) == "refs/warp/" + graph + "/"
    ensures MarkerRef(graph) == "refs/warp/" + graph + "/substrate-version"
    ensures CheckpointRef(graph) == "refs/warp/" + graph + "/checkpoints/head"
    ensures CoverageRef(graph) == "refs/warp/" + graph + "/coverage/head"
    ensures StateCacheRef(graph) == "refs/warp/" + graph + "/state-cache"
  {
  }

  lemma AreasSpelled(graph: string, area: string, n: RefName)
    ensures Lies(graph, area, n) <==> Below(graph, area, n)
    ensures Lies(graph, "", n) <==> InGraph(graph, n)
  {
    NamesSpelled(graph);
    assert "refs/warp/" + graph + "/" + "" == GraphPrefix(graph);
  }

  /** The classes of the planner are areas and names. */
  lemma ClassesByName(graph: string, n: RefName)
    ensures Retained(graph, n) <==> IsPreservedName(graph, n)
    ensures Lies(graph, "writers/", n) <==> Below(graph, "writers/", n)
    ensures Lies(graph, "recovery/", n) <==> Below(graph, "recovery/", n)
    ensures Lies(graph, "", n) <==> InGraph(graph, n)
    ensures Rebuilt(graph, n) <==> Retired(graph, n)
  {
    hide Classify;
    NamesSpelled(graph);
    forall area: string
      ensures Lies(graph, area, n) <==> Below(graph, area, n)
    {
      AreasSpelled(graph, area, n);
    }
    AreasSpelled(graph, "", n);
    hide Below, Lies, GraphPrefix;
    ClassifyIgnoresOrder(graph, n);
    ClassifyIgnoresOrder(graph, CheckpointRef(graph));
    DerivedAreas(graph, n);
  }

  /** What the inventory can file, by its name: a commit where commits are kept, anything else as it is. */
  lemma FilableExactly(graph: string, inv: Inventory, n: RefName)
    ensures Filable(graph, inv, n)
       <==> || Lies(graph, "writers/", n) || Lies(graph, "recovery/", n)
            || ((n == "refs/warp/" + graph + "/checkpoints/head" || n == "refs/warp/" + graph + "/coverage/head"
                 || n == "refs/warp/" + graph + "/state-cache") && n in inv.seen)
            || ((Lies(graph, "checkpoints/", n) || Retained(graph, n)) && n in inv.seen && inv.seen[n] in inv.commits)
  {
    NamesSpelled(graph);
    ClassesByName(graph, n);
    AreasSpelled(graph, "checkpoints/", n);
    ClassifyIgnoresOrder(graph, n);
    DerivedAreas(graph, n);
    hide Classify, Below, Lies, Retained, CheckpointRef, CoverageRef, StateCacheRef, GraphPrefix, IsPreservedName;
  }

  // ----------------------------------------------------------- writer chains

  predicate WriterIdChar(c: char) {
    'A' <= c <= 'Z' || 'a' <= c <= 'z' || '0' <= c <= '9' || c == '.' || c == '_' || c == '-'
  }

  predicate ValidWriterId(id: string) {
    && 1 <= |id| <= 64
    && (forall i | 0 <= i < |id| :: WriterIdChar(id[i]))
    && forall i | 0 <= i < |id| - 1 :: !(id[i] == '.' && id[i + 1] == '.')
  }

  /** The last segment of a writer ref, when it is a valid writer name. */
  function ParseWriterId(graph: string, name: RefName): Option<string> {
    var prefix := GraphPrefix(graph) + "writers/";
    if prefix <= name && ValidWriterId(name[|prefix|..]) then Some(name[|prefix|..]) else None
  }

  lemma WriterIdNamesTheRef(graph: string, a: RefName, b: RefName)
    requires ParseWriterId(graph, a).Some? && ParseWriterId(graph, a) == ParseWriterId(graph, b)
    ensures a == b
  {
    var prefix := GraphPrefix(graph) + "writers/";
    assert a == prefix + a[|prefix|..] && b == prefix + b[|prefix|..];
  }

  /** A writer ref is the writer's name below `writers/`: one to 64 safe characters, no two dots in a row. */
  lemma WriterIdExactly(graph: string, name: RefName, writer: string)
    ensures ParseWriterId(graph, name) == Some(writer)
       <==> && name == "refs/warp/" + graph + "/writers/" + writer && 1 <= |writer| <= 64
            && (forall c | c in writer :: 'A' <= c <= 'Z' || 'a' <= c <= 'z' || '0' <= c <= '9' || c in "._-")
            && forall i | 0 <= i < |writer| - 1 :: !(writer[i] == '.' && writer[i + 1] == '.')
  {
    var prefix := GraphPrefix(graph) + "writers/";
    assert prefix == "refs/warp/" + graph + "/writers/";
    if prefix <= name {
      assert name == prefix + name[|prefix|..];
    }
    assert name == prefix + writer ==> name[|prefix|..] == writer;
    assert forall i | 0 <= i < |writer| :: writer[i] in writer;
  }

  /** A writer the planner accepts: a readable chain that runs from a root to the head it read. */
  ghost predicate Plannable(graph: string, inv: Inventory, passphrase: bool, name: RefName) {
    var shas := inv.RevList(name);
    && ParseWriterId(graph, name).Some?
    && name in inv.seen
    && IsChain(inv.read, graph, ParseWriterId(graph, name).value, shas)
    && shas != [] && shas[|shas| - 1] == inv.seen[name]
    && (EncryptedCount(inv.read, shas) > 0 ==> passphrase)
  }

  function WriterPlanOf(graph: string, inv: Inventory, name: RefName): WriterPlan
    requires ParseWriterId(graph, name).Some? && name in inv.seen
    requires LegacyCount(inv.read, inv.RevList(name)) <= |inv.RevList(name)|
  {
    var shas := inv.RevList(name);
    WriterPlan(|shas|, |shas| - LegacyCount(inv.read, shas), EncryptedCount(inv.read, shas), inv.seen[name],
               LegacyCount(inv.read, shas), name, ParseWriterId(graph, name).value)
  }

  lemma {:induction false} LegacyCountBounded(read: Reader, shas: seq<Sha>)
    ensures LegacyCount(read, shas) <= |shas|
  {
    if shas != [] {
      LegacyCountBounded(read, shas[..|shas| - 1]);
    }
  }

  /** The positions of a chain that hold a patch in current storage. */
  function CurrentPositions(read: Reader, shas: seq<Sha>): set<nat> {
    set i: nat | i < |shas| && read(shas[i]).Some? && read(shas[i]).value.storage.CurrentStorage?
  }

  /** The positions that hold an encrypted patch in retired storage. */
  function EncryptedPositions(read: Reader, shas: seq<Sha>): set<nat> {
    set i: nat | i < |shas| && IsSecret(read(shas[i]))
  }

  predicate IsSecret(patch: Option<PatchCommit>) {
    patch.Some? && !patch.value.storage.CurrentStorage? && patch.value.storage.Encrypted()
  }

  lemma {:induction false} CurrentAreCounted(read: Reader, shas: seq<Sha>)
    ensures LegacyCount(read, shas) == |shas| - |CurrentPositions(read, shas)|
  {
    if shas == [] {
      assert CurrentPositions(read, shas) == {};
    } else {
      var n: nat, front := |shas| - 1, shas[..|shas| - 1];
      CurrentAreCounted(read, front);
      var positions := CurrentPositions(read, front);
      assert n !in positions;
      assert CurrentPositions(read, shas) == if CurrentAt(read, shas[n]) then positions + {n} else positions;
    }
  }

  lemma EncryptedOneMore(read: Reader, shas: seq<Sha>)
    requires shas != []
    ensures var front := shas[..|shas| - 1];
            EncryptedCount(read, shas) == EncryptedCount(read, front) + if IsSecret(read(shas[|shas| - 1])) then 1 else 0
  {
  }

  lemma {:induction false} EncryptedAreCounted(read: Reader, shas: seq<Sha>)
    ensures EncryptedCount(read, shas) == |EncryptedPositions(read, shas)|
  {
    if shas == [] {
      assert EncryptedPositions(read, shas) == {};
    } else {
      hide EncryptedCount, IsSecret;
      var n: nat, front := |shas| - 1, shas[..|shas| - 1];
      EncryptedAreCounted(read, front);
      EncryptedOneMore(read, shas);
      var positions := EncryptedPositions(read, front);
      assert n !in positions;
      assert EncryptedPositions(read, shas) == if IsSecret(read(shas[n])) then positions + {n} else positions;
    }
  }

  /** What the planner accepts of a writer, commit by commit. */
  ghost predicate WholeChain(graph: string, inv: Inventory, passphrase: bool, name: RefName) {
    var shas := inv.RevList(name);
    && ParseWriterId(graph, name).Some? && name in inv.seen
    && shas != [] && shas[|shas| - 1] == inv.seen[name]
    && (forall i: nat | i < |shas| ::
          && inv.read(shas[i]).Some?
          && inv.read(shas[i]).value.graph == graph
          && inv.read(shas[i]).value.writer == ParseWriterId(graph, name).value
          && (i == 0 ==> inv.read(shas[i]).value.Parent() == None)
          && (i > 0 ==> inv.read(shas[i]).value.Parent() == Some(shas[i - 1])))
    && (forall i: nat | i < |shas| && inv.read(shas[i]).value.storage.Encrypted() ::
          inv.read(shas[i]).value.storage.CurrentStorage? || passphrase)
  }

  lemma PlannableIsWhole(graph: string, inv: Inventory, passphrase: bool, name: RefName)
    ensures Plannable(graph, inv, passphrase, name) <==> WholeChain(graph, inv, passphrase, name)
  {
    hide ParseWriterId, EncryptedCount;
    var shas := inv.RevList(name);
    EncryptedAreCounted(inv.read, shas);
    var secrets := EncryptedPositions(inv.read, shas);
    if WholeChain(graph, inv, passphrase, name) {
      forall i: nat | i < |shas|
        ensures Links(inv.read, graph, ParseWriterId(graph, name).value, shas, i)
      {
        var sha := shas[i];
        assert inv.read(sha).Some? && inv.read(sha).value.graph == graph;
        assert inv.read(sha).value.writer == ParseWriterId(graph, name).value;
        assert inv.read(sha).value.Parent() == Previous(shas, i);
      }
      if secrets != {} {
        var i :| i in secrets;
        assert passphrase;
      }
    }
    if Plannable(graph, inv, passphrase, name) {
      forall i: nat | i < |shas|
        ensures Links(inv.read, graph, ParseWriterId(graph, name).value, shas, i)
        ensures IsSecret(inv.read(shas[i])) ==> passphrase
      {
        assert Links(inv.read, graph, ParseWriterId(graph, name).value, shas, i);
        assert IsSecret(inv.read(shas[i])) ==> i in secrets;
      }
    }
  }

  /** Validates one writer's chain and counts its patches by storage. */
  method PlanWriter(graph: string, inv: Inventory, passphrase: bool, name: RefName)
    returns (r: Result<WriterPlan, PlanError>)
    ensures r.Success? <==> Plannable(graph, inv, passphrase, name)
    ensures r.Success? <==> WholeChain(graph, inv, passphrase, name)
    ensures r.Success? ==>
              var shas := inv.RevList(name);
              && r.value.refName == name && Some(r.value.writer) == ParseWriterId(graph, name)
              && r.value.head == shas[|shas| - 1] && r.value.commitCount == |shas|
              && r.value.currentCount == |CurrentPositions(inv.read, shas)|
              && r.value.legacyCount == |shas| - r.value.currentCount
              && r.value.encryptedCount == |EncryptedPositions(inv.read, shas)|
    ensures LegacyCount(inv.read, inv.RevList(name)) <= |inv.RevList(name)|
    ensures r.Success? ==> r.value == WriterPlanOf(graph, inv, name)
  {
    LegacyCountBounded(inv.read, inv.RevList(name));
    PlannableIsWhole(graph, inv, passphrase, name);
    CurrentAreCounted(inv.read, inv.RevList(name));
    EncryptedAreCounted(inv.read, inv.RevList(name));
    hide WholeChain, CurrentPositions, EncryptedPositions, ParseWriterId;
    var writer := ParseWriterId(graph, name);
    if writer.None? {
      return Failure(InvalidWriterRef(name));
    }
    if name !in inv.seen {
      return Failure(RefDisappeared(name));
    }
    var head := inv.seen[name];
    var shas := inv.RevList(name);
    var legacy, current, encrypted: nat := 0, 0, 0;
    var previous: Option<Sha> := None;
    for k := 0 to |shas|
      invariant IsChain(inv.read, graph, writer.value, shas[..k])
      invariant previous == Previous(shas, k)
      invariant legacy == LegacyCount(inv.read, shas[..k]) && current + legacy == k
      invariant encrypted == EncryptedCount(inv.read, shas[..k])
    {
      var sha := shas[k];
      assert shas[..k + 1] == shas[..k] + [sha] && shas[..k + 1][..k] == shas[..k];
      var patch := inv.read(sha);
      if patch.None? || patch.value.graph != graph || patch.value.writer != writer.value
         || patch.value.Parent() != previous {
        assert !Links(inv.read, graph, writer.value, shas, k);
        return Failure(ChainMismatch(sha));
      }
      assert Previous(shas[..k], k) == Previous(shas, k);
      ChainAppend(inv.read, graph, writer.value, shas[..k], sha);
      if patch.value.storage.CurrentStorage? {
        current := current + 1;
      } else {
        legacy := legacy + 1;
        if patch.value.storage.Encrypted() {
          encrypted := encrypted + 1;
        }
      }
      previous := Some(sha);
    }
    assert shas[..|shas|] == shas;
    if previous != Some(head) {
      return Failure(ChainMissesHead(name));
    }
    if encrypted > 0 && !passphrase {
      return Failure(PassphraseMissing(name));
    }
    r := Success(WriterPlan(|shas|, current, encrypted, head, legacy, name, writer.value));
  }

  // -------------------------------------------------------------------- plan

  predicate Reserved(segment: string) {
    segment in [
      "writers", "checkpoints", "coverage", "cursor", "strands", "strand-overlays", "strand-braids", "audit",
      "trust", "intents", "seek-cache", "state-cache"]
  }

  /** `split('/')` */
  function Segments(s: string): seq<string> {
    if s == [] then [""]
    else
      var rest := Segments(s[1..]);
      if s[0] == '/' then [""] + rest
      else if rest == [] then [[s[0]]]
      else [[s[0]] + rest[0]] + rest[1..]
  }

  predicate ValidGraphName(graph: string) {
    && graph != ""
    && (forall i | 0 <= i < |graph| - 1 :: !(graph[i] == '.' && graph[i + 1] == '.'))
    && (forall i | 0 <= i < |graph| :: graph[i] != ';' && graph[i] != ' ' && graph[i] != '\0')
    && forall segment | segment in Segments(graph) :: !Reserved(segment)
  }

  /** The text from `i` to `j` stands between slashes or the ends. */
  predicate SegmentAt(s: string, i: nat, j: nat) {
    && i <= j <= |s| && (i == 0 || s[i - 1] == '/') && (j == |s| || s[j] == '/')
    && forall k | i <= k < j :: s[k] != '/'
  }

  lemma FirstSegment(s: string, i: nat, j: nat)
    requires s != []
    ensures SegmentAt(s, i + 1, j + 1) <==> SegmentAt(s[1..], i, j) && (i == 0 ==> s[0] == '/')
    ensures i <= j < |s| ==> s[1..][i..j] == s[i + 1..j + 1]
    ensures s[0] != '/' ==> (SegmentAt(s, 0, j + 1) <==> SegmentAt(s[1..], 0, j))
  {
    var t := s[1..];
    assert forall k | 0 <= k < |t| :: t[k] == s[k + 1];
    if SegmentAt(s, i + 1, j + 1) {
      forall k | i <= k < j
        ensures t[k] != '/'
      {
        assert s[k + 1] != '/';
      }
    }
    if s[0] != '/' && SegmentAt(s, 0, j + 1) {
      forall k | 0 <= k < j
        ensures t[k] != '/'
      {
        assert s[k + 1] != '/';
      }
    }
  }

  lemma {:induction false} SegmentsAre(s: string)
    ensures |Segments(s)| > 0 && exists j: nat :: j <= |s| && SegmentAt(s, 0, j) && Segments(s)[0] == s[..j]
    ensures forall x :: x in Segments(s)[1..]
                        <==> exists i: nat, j: nat :: 0 < i <= j <= |s| && SegmentAt(s, i, j) && x == s[i..j]
  {
    if s == [] {
      assert SegmentAt(s, 0, 0);
    } else {
      hide SegmentAt;
      var t, all := s[1..], Segments(s);
      SegmentsAre(t);
      var e: nat :| e <= |t| && SegmentAt(t, 0, e) && Segments(t)[0] == t[..e];
      SegmentEnds(t, 0, e);
      FirstSegment(s, 0, e);
      if s[0] == '/' {
        StartsWithSlash(s);
        assert all[0] == s[..0];
      } else {
        assert all[0] == s[..e + 1];
      }
      forall x
        ensures x in all[1..] <==> exists i: nat, j: nat :: 0 < i <= j <= |s| && SegmentAt(s, i, j) && x == s[i..j]
      {
        SegmentsShift(s, x, e);
      }
    }
  }

  lemma SegmentEnds(s: string, i: nat, j: nat)
    requires SegmentAt(s, i, j)
    ensures i <= j <= |s|
  {
  }

  lemma StartsWithSlash(s: string)
    requires s != [] && s[0] == '/'
    ensures SegmentAt(s, 0, 0)
    ensures forall j: nat :: SegmentAt(s, 0, j) ==> j == 0
  {
  }

  /** The segments after the first, from those of the rest of the text. */
  lemma SegmentsShift(s: string, x: string, e: nat)
    requires s != [] && SegmentAt(s[1..], 0, e) && |Segments(s[1..])| > 0 && Segments(s[1..])[0] == s[1..][..e]
    requires x in Segments(s[1..])[1..]
        <==> exists i: nat, j: nat :: 0 < i <= j < |s| && SegmentAt(s[1..], i, j) && x == s[1..][i..j]
    ensures x in Segments(s)[1..] <==> exists i: nat, j: nat :: 0 < i <= j <= |s| && SegmentAt(s, i, j) && x == s[i..j]
  {
    hide SegmentAt;
    var t, rest := s[1..], Segments(s[1..]);
    SegmentEnds(t, 0, e);
    if x in Segments(s)[1..] {
      if x in rest[1..] {
        var i: nat, j: nat :| 0 < i <= j <= |t| && SegmentAt(t, i, j) && x == t[i..j];
        SegmentEnds(t, i, j);
        FirstSegment(s, i, j);
        assert SegmentAt(s, i + 1, j + 1) && x == s[i + 1..j + 1];
      } else {
        assert s[0] == '/' && x == rest[0];
        FirstSegment(s, 0, e);
        assert SegmentAt(s, 0 + 1, e + 1) && x == s[0 + 1..e + 1];
      }
    }
    if i: nat, j: nat :| 0 < i <= j <= |s| && SegmentAt(s, i, j) && x == s[i..j] {
      SegmentEnds(s, i, j);
      FirstSegment(s, i - 1, j - 1);
      assert SegmentAt(t, i - 1, j - 1) && x == t[i - 1..j - 1];
      if i == 1 {
        OneFirstSegment(t, e, j - 1);
        assert x == rest[0];
      }
    }
  }

  lemma OneFirstSegment(s: string, e: nat, j: nat)
    requires SegmentAt(s, 0, e) && SegmentAt(s, 0, j)
    ensures e == j
  {
  }

  /**
   A graph name is not empty, has no `..`, semicolon, space or null character, and no text
   between two of its slashes, or a slash and an end, is a word of the ref layout.
   */
  lemma GraphNameExactly(graph: string)
    ensures ValidGraphName(graph)
       <==> && graph != "" && (forall i | 0 <= i < |graph| - 1 :: !(graph[i] == '.' && graph[i + 1] == '.'))
            && (forall c | c in graph :: c !in "; \0")
            && forall i: nat, j: nat | SegmentAt(graph, i, j) ::
                 graph[i..j] !in [
                   "writers", "checkpoints", "coverage", "cursor", "strands", "strand-overlays", "strand-braids",
                   "audit", "trust", "intents", "seek-cache", "state-cache"]
  {
    hide SegmentAt;
    SegmentsAre(graph);
    var all := Segments(graph);
    var e: nat :| e <= |graph| && SegmentAt(graph, 0, e) && all[0] == graph[..e];
    assert forall i | 0 <= i < |graph| :: graph[i] in graph;
    assert all == [all[0]] + all[1..];
    forall i: nat, j: nat | SegmentAt(graph, i, j)
      ensures i <= j <= |graph| && graph[i..j] in all
    {
      SegmentEnds(graph, i, j);
      if i == 0 {
        OneFirstSegment(graph, e, j);
      } else {
        assert graph[i..j] in all[1..];
      }
    }
    forall x | x in all
      ensures exists i: nat, j: nat :: i <= j <= |graph| && SegmentAt(graph, i, j) && x == graph[i..j]
    {
      if x == all[0] {
        assert SegmentAt(graph, 0, e) && x == graph[0..e];
      }
    }
  }

  /** One plan per writer ref, in order. */
  ghost predicate PlannedWriters(
    graph: string, inv: Inventory, passphrase: bool, names: seq<RefName>, writers: seq<WriterPlan>)
  {
    && |writers| == |names|
    && forall k | 0 <= k < |names| ::
         && Plannable(graph, inv, passphrase, names[k])
         && LegacyCount(inv.read, inv.RevList(names[k])) <= |inv.RevList(names[k])|
         && writers[k] == WriterPlanOf(graph, inv, names[k])
  }

  /** What a plan that requires migration says about the inventory it came from. */
  ghost predicate Inventoried(graph: string, inv: Inventory, passphrase: bool, plan: Plan) {
    && plan.graph == graph && plan.markerRef == MarkerRef(graph) && plan.status == MigrationRequired
    && Files(graph, inv, inv.listing, plan.derivedRefs, plan.preservedRefs)
    && plan.writers != []
    && PlannedWriters(graph, inv, passphrase, WriterRefs(graph, inv.listing), plan.writers)
  }

  method PlanWriters(graph: string, inv: Inventory, passphrase: bool, names: seq<RefName>)
    returns (r: Result<seq<WriterPlan>, PlanError>)
    ensures r.Success? <==> forall n | n in names :: Plannable(graph, inv, passphrase, n)
    ensures r.Success? ==> PlannedWriters(graph, inv, passphrase, names, r.value)
  {
    var writers: seq<WriterPlan> := [];
    for k := 0 to |names|
      invariant PlannedWriters(graph, inv, passphrase, names[..k], writers)
    {
      assert names[k] in names;
      var planned := PlanWriter(graph, inv, passphrase, names[k]);
      if planned.Failure? {
        return Failure(planned.error);
      }
      assert names[..k + 1] == names[..k] + [names[k]];
      writers := writers + [planned.value];
    }
    assert names[..|names|] == names;
    r := Success(writers);
  }

  /** Inventories every graph ref and validates all writer commits. */
  method PlanMigration(graph: string, inv: Inventory, passphrase: bool) returns (r: Result<Plan, PlanError>)
    ensures r.Success? ==> ValidGraphName(graph) && r.value.graph == graph
    ensures r.Success? && r.value.status == MigrationRequired ==>
              inv.marker == None && Inventoried(graph, inv, passphrase, r.value)
    ensures r.Success? && r.value.status == Current <==> ValidGraphName(graph) && inv.marker == Some(true)
    ensures r.Success? && r.value.status == Empty
       <==> ValidGraphName(graph) && inv.marker == None && inv.listing == []
    ensures r.Success? && r.value.status == MigrationRequired
       <==> && ValidGraphName(graph) && inv.marker == None && inv.listing != []
            && (forall n | n in inv.listing :: Filable(graph, inv, n))
            && WriterRefs(graph, inv.listing) != []
            && (forall n | n in WriterRefs(graph, inv.listing) :: Plannable(graph, inv, passphrase, n))
  {
    if !ValidGraphName(graph) {
      return Failure(InvalidGraphName);
    }
    if inv.marker.Some? {
      if !inv.marker.value {
        return Failure(UnsupportedMarker);
      }
      return Success(Plan(map[], graph, MarkerRef(graph), map[], Current, []));
    }
    if inv.listing == [] {
      return Success(Plan(map[], graph, MarkerRef(graph), map[], Empty, []));
    }
    var error, writerRefs, derived, preserved := ClassifyRefs(graph, inv);
    if error.Some? {
      return Failure(error.value);
    }
    if writerRefs == [] {
      return Failure(NoWriterRefs);
    }
    var writers := PlanWriters(graph, inv, passphrase, writerRefs);
    if writers.Failure? {
      return Failure(writers.error);
    }
    r := Success(Plan(derived, graph, MarkerRef(graph), preserved, MigrationRequired, writers.value));
  }

  lemma {:induction false} WriterRefsSay(graph: string, listing: seq<RefName>)
    ensures forall n :: n in WriterRefs(graph, listing) <==> n in listing && Classify(graph, n) == WriterRef
    ensures (forall i, j | 0 <= i < j < |listing| :: listing[i] != listing[j]) ==>
              forall i, j | 0 <= i < j < |WriterRefs(graph, listing)| ::
                WriterRefs(graph, listing)[i] != WriterRefs(graph, listing)[j]
  {
    if listing != [] {
      var front := listing[..|listing| - 1];
      WriterRefsSay(graph, front);
      assert listing == front + [listing[|listing| - 1]];
    }
  }

  predicate NamesAWriter(plan: Plan, name: RefName) {
    exists k | 0 <= k < |plan.writers| :: plan.writers[k].refName == name
  }

  /** A plan puts each graph ref in exactly one of its classes, and the rest under recovery. */
  lemma PlanPartitionsTheRefs(graph: string, inv: Inventory, passphrase: bool, plan: Plan, name: RefName)
    requires Inventoried(graph, inv, passphrase, plan)
    ensures !(NamesAWriter(plan, name) && name in plan.derivedRefs)
    ensures !(NamesAWriter(plan, name) && name in plan.preservedRefs)
    ensures !(name in plan.derivedRefs && name in plan.preservedRefs)
    ensures name in inv.listing
       <==> || NamesAWriter(plan, name) || name in plan.derivedRefs || name in plan.preservedRefs
            || (name in inv.listing && Below(graph, "recovery/", name))
    ensures Below(graph, "recovery/", name) ==>
              !NamesAWriter(plan, name) && name !in plan.derivedRefs && name !in plan.preservedRefs
  {
    WriterRefsSay(graph, inv.listing);
    ClassifyIgnoresOrder(graph, name);
    var refs := WriterRefs(graph, inv.listing);
    if NamesAWriter(plan, name) {
      var k :| 0 <= k < |plan.writers| && plan.writers[k].refName == name;
      assert refs[k] == name;
    }
    if name in refs {
      var k :| 0 <= k < |refs| && refs[k] == name;
      assert plan.writers[k].refName == name;
    }
  }

  /** What a plan holds, by the names of the refs, and at the values the inventory saw. */
  lemma PlanByName(graph: string, inv: Inventory, passphrase: bool, plan: Plan, n: RefName)
    requires Inventoried(graph, inv, passphrase, plan)
    ensures plan.graph == graph && plan.markerRef == "refs/warp/" + graph + "/substrate-version"
    ensures n in plan.derivedRefs <==> n in inv.listing && Rebuilt(graph, n)
    ensures n in plan.preservedRefs <==> n in inv.listing && Retained(graph, n)
    ensures (exists w :: w in plan.writers && w.refName == n) <==> n in inv.listing && Lies(graph, "writers/", n)
    ensures n in plan.derivedRefs ==> n in inv.seen && plan.derivedRefs[n] == inv.seen[n]
    ensures n in plan.preservedRefs ==> n in inv.seen && plan.preservedRefs[n] == inv.seen[n]
    ensures forall w | w in plan.writers && w.refName == n :: n in inv.seen && w.head == inv.seen[n]
  {
    hide Classify, Lies, Below, Retained, Rebuilt, ParseWriterId;
    NamesSpelled(graph);
    ClassesByName(graph, n);
    ClassifyIgnoresOrder(graph, n);
    WriterRefsSay(graph, inv.listing);
    var refs := WriterRefs(graph, inv.listing);
    if n in refs {
      var k :| 0 <= k < |refs| && refs[k] == n;
      assert plan.writers[k] in plan.writers && plan.writers[k].refName == n;
    }
    forall w | w in plan.writers && w.refName == n
      ensures n in refs && n in inv.seen && w.head == inv.seen[n]
    {
      var k :| 0 <= k < |plan.writers| && plan.writers[k] == w;
      assert refs[k] == n;
    }
  }

  /** Distinct listed refs give distinct writers, so their chains share no commit. */
  lemma PlannedWritersAreDistinct(graph: string, inv: Inventory, passphrase: bool, plan: Plan, i: nat, j: nat)
    requires Inventoried(graph, inv, passphrase, plan)
    requires forall a, b | 0 <= a < b < |inv.listing| :: inv.listing[a] != inv.listing[b]
    requires i < j < |plan.writers|
    ensures plan.writers[i].refName != plan.writers[j].refName
    ensures plan.writers[i].writer != plan.writers[j].writer
    ensures forall s | s in inv.RevList(plan.writers[i].refName) :: s !in inv.RevList(plan.writers[j].refName)
  {
    WriterRefsSay(graph, inv.listing);
    var refs := WriterRefs(graph, inv.listing);
    assert Plannable(graph, inv, passphrase, refs[i]) && Plannable(graph, inv, passphrase, refs[j]);
    if plan.writers[i].writer == plan.writers[j].writer {
      WriterIdNamesTheRef(graph, refs[i], refs[j]);
    }
    ChainsOfDistinctWritersAreDisjoint(
      inv.read, graph, plan.writers[i].writer, plan.writers[j].writer, inv.RevList(refs[i]), inv.RevList(refs[j]));
  }

  /**
   Two inventories that saw the same head of a writer counted the same chain, whatever
   order or moment `rev-list` was asked in.
   */
  lemma SameHeadSameChain(graph: string, a: Inventory, b: Inventory, passphrase: bool, name: RefName)
    requires Plannable(graph, a, passphrase, name) && Plannable(graph, b, passphrase, name)
    requires a.read == b.read && a.seen[name] == b.seen[name]
    ensures a.RevList(name) == b.RevList(name)
    ensures LegacyCount(a.read, a.RevList(name)) <= |a.RevList(name)|
    ensures LegacyCount(b.read, b.RevList(name)) <= |b.RevList(name)|
    ensures WriterPlanOf(graph, a, name) == WriterPlanOf(graph, b, name)
  {
    LegacyCountBounded(a.read, a.RevList(name));
    LegacyCountBounded(b.read, b.RevList(name));
    ChainDeterminedByHead(
      a.read, graph, ParseWriterId(graph, name).value, a.RevList(name), b.RevList(name));
  }
}
