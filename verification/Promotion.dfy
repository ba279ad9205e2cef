/**
 The two ref transactions of V18MigrationFinalizer.ts: the one that archives and promotes,
 and the one that takes a promotion back.
 */
module Promotion {
  import opened Wrappers
  import opened RefStore

  /** A record's entries in some order; no result below depends on the order. */
  ghost predicate Enumerates(entries: seq<(RefName, Oid)>, m: Refs) {
    && (forall i, j | 0 <= i < j < |entries| :: entries[i].0 != entries[j].0)
    && (forall i | 0 <= i < |entries| :: entries[i].0 in m && m[entries[i].0] == entries[i].1)
    && (forall n | n in m :: Seen(entries, |entries|, n))
  }

  predicate Seen(entries: seq<(RefName, Oid)>, k: nat, name: RefName)
    requires k <= |entries|
  {
    exists i | 0 <= i < k :: entries[i].0 == name
  }

  /** `sortedEntries` */
  method SortedEntries(m: Refs) returns (entries: seq<(RefName, Oid)>)
    ensures Enumerates(entries, m)
  {
    entries := [];
    var todo := m.Keys;
    while todo != {}
      invariant todo <= m.Keys
      invariant forall i, j | 0 <= i < j < |entries| :: entries[i].0 != entries[j].0
      invariant forall i | 0 <= i < |entries| :: entries[i].0 in m && m[entries[i].0] == entries[i].1
      invariant forall i | 0 <= i < |entries| :: entries[i].0 !in todo
      invariant forall n | n in m && n !in todo :: Seen(entries, |entries|, n)
      decreases |todo|
    {
      var n :| n in todo;
      ghost var before := entries;
      entries := entries + [(n, m[n])];
      todo := todo - {n};
      assert entries[|before|].0 == n;
      forall x | x in m && x !in todo
        ensures Seen(entries, |entries|, x)
      {
        if x != n {
          var i :| 0 <= i < |before| && before[i].0 == x;
          assert entries[i].0 == x;
        }
      }
    }
  }

  // --------------------------------------------------------------- promotion

  /** What the promotion does to one name. */
  function PromotionOf(source: Refs, desired: Refs, recovery: Refs, n: RefName): seq<RefCommand> {
    (if n in recovery then [Create(n, recovery[n])] else [])
    + (if n in desired then [PromoteLine(source, n, desired[n])] else [])
    + (if n in source && n !in desired then [Delete(n, source[n])] else [])
  }

  ghost predicate IsPromotion(commands: seq<RefCommand>, source: Refs, desired: Refs, recovery: Refs) {
    forall n :: Named(commands, n) == PromotionOf(source, desired, recovery, n)
  }

  /** `input.push(line)`, or nothing to push. */
  method PushLine(commands: seq<RefCommand>, name: RefName, line: seq<RefCommand>)
    returns (longer: seq<RefCommand>)
    requires |line| <= 1 && forall c | c in line :: c.name == name
    ensures forall n :: Named(longer, n) == Named(commands, n) + (if n == name then line else [])
  {
    longer := commands + line;
    forall n
      ensures Named(longer, n) == Named(commands, n) + (if n == name then line else [])
    {
      if line == [] {
        assert longer == commands;
      } else {
        assert line == [line[0]];
        NamedAppend(commands, line[0], n);
      }
    }
  }

  /** The command lines `applyRefTransaction` sends. */
  method PromotionCommands(source: Refs, desired: Refs, recovery: Refs) returns (commands: seq<RefCommand>)
    ensures IsPromotion(commands, source, desired, recovery)
  {
    commands := ArchiveLines([], recovery);
    commands := PromoteLines(commands, source, desired);
    commands := RetireLines(commands, source, desired);
  }

  method ArchiveLines(commands: seq<RefCommand>, recovery: Refs) returns (longer: seq<RefCommand>)
    ensures forall n ::
              Named(longer, n) == Named(commands, n) + (if n in recovery then [Create(n, recovery[n])] else [])
  {
    hide Named;
    longer := commands;
    var entries := SortedEntries(recovery);
    for i := 0 to |entries|
      invariant forall n ::
                  Named(longer, n) == Named(commands, n)
                                      + (if Seen(entries, i, n) then [Create(n, recovery[n])] else [])
    {
      longer := PushLine(longer, entries[i].0, [Create(entries[i].0, entries[i].1)]);
    }
  }

  function PromoteLine(source: Refs, n: RefName, oid: Oid): RefCommand {
    if n in source then Update(n, oid, source[n]) else Create(n, oid)
  }

  method PromoteLines(commands: seq<RefCommand>, source: Refs, desired: Refs) returns (longer: seq<RefCommand>)
    ensures forall n ::
              Named(longer, n) == Named(commands, n)
                                  + (if n in desired then [PromoteLine(source, n, desired[n])] else [])
  {
    hide Named;
    longer := commands;
    var entries := SortedEntries(desired);
    for i := 0 to |entries|
      invariant forall n ::
                  Named(longer, n) == Named(commands, n)
                                      + (if Seen(entries, i, n) then [PromoteLine(source, n, desired[n])] else [])
    {
      longer := PushLine(longer, entries[i].0, [PromoteLine(source, entries[i].0, entries[i].1)]);
    }
  }

  method RetireLines(commands: seq<RefCommand>, source: Refs, desired: Refs) returns (longer: seq<RefCommand>)
    ensures forall n ::
              Named(longer, n) == Named(commands, n)
                                  + (if n in source && n !in desired then [Delete(n, source[n])] else [])
  {
    hide Named;
    longer := commands;
    var entries := SortedEntries(source);
    for i := 0 to |entries|
      invariant forall n ::
                  Named(longer, n) == Named(commands, n)
                                      + (if Seen(entries, i, n) && n !in desired then [Delete(n, source[n])] else [])
    {
      longer := PushLine(longer, entries[i].0,
                         if entries[i].0 in desired then [] else [Delete(entries[i].0, entries[i].1)]);
    }
  }

  /** When the promotion goes through. */
  ghost predicate CanPromote(refs: Refs, source: Refs, desired: Refs, recovery: Refs) {
    && (forall n | n in source :: At(refs, n) == Some(source[n]))
    && (forall n | n in desired && n !in source :: n !in refs)
    && (forall n | n in recovery :: n !in refs && n !in source && n !in desired)
  }

  /** The refs after it: the source retired, the desired refs and the archive in place. */
  function Promoted(refs: Refs, source: Refs, desired: Refs, recovery: Refs): Refs {
    (refs - source.Keys) + desired + recovery
  }

  lemma PromotionAppliesAt(
    refs: Refs, commands: seq<RefCommand>, source: Refs, desired: Refs, recovery: Refs, n: RefName)
    requires IsPromotion(commands, source, desired, recovery) && Applicable(refs, commands)
    ensures n in source ==> At(refs, n) == Some(source[n])
    ensures n in desired && n !in source ==> n !in refs
    ensures n in recovery ==> n !in refs && n !in source && n !in desired
    ensures At(Applied(refs, commands), n) == At(Promoted(refs, source, desired, recovery), n)
  {
    ApplicableByName(refs, commands);
    assert Named(commands, n) == PromotionOf(source, desired, recovery, n);
    assert AdmitsAll(refs, Named(commands, n));
    AppliedByName(refs, commands, n);
  }

  /** Exactly which stores accept the promotion, and what it leaves behind. */
  lemma PromotionApplies(refs: Refs, commands: seq<RefCommand>, source: Refs, desired: Refs, recovery: Refs)
    requires IsPromotion(commands, source, desired, recovery)
    ensures Applicable(refs, commands) <==> CanPromote(refs, source, desired, recovery)
    ensures Applicable(refs, commands) ==> Applied(refs, commands) == Promoted(refs, source, desired, recovery)
  {
    ApplicableByName(refs, commands);
    if CanPromote(refs, source, desired, recovery) {
      forall n
        ensures AdmitsAll(refs, Named(commands, n))
      {
        assert Named(commands, n) == PromotionOf(source, desired, recovery, n);
      }
    }
    if Applicable(refs, commands) {
      forall n
        ensures n in source ==> At(refs, n) == Some(source[n])
        ensures n in desired && n !in source ==> n !in refs
        ensures n in recovery ==> n !in refs && n !in source && n !in desired
        ensures At(Applied(refs, commands), n) == At(Promoted(refs, source, desired, recovery), n)
      {
        PromotionAppliesAt(refs, commands, source, desired, recovery, n);
      }
      SameEverywhere(Applied(refs, commands), Promoted(refs, source, desired, recovery));
    }
  }

  // ---------------------------------------------------------------- rollback

  /** What the rollback does to one name. */
  function RollbackOf(source: Refs, promoted: Refs, n: RefName): seq<RefCommand> {
    (if n in promoted then [RevertLine(source, n, promoted[n])] else [])
    + (if n in source && n !in promoted then [Create(n, source[n])] else [])
  }

  ghost predicate IsRollback(commands: seq<RefCommand>, source: Refs, promoted: Refs) {
    forall n :: Named(commands, n) == RollbackOf(source, promoted, n)
  }

  /** The command lines `rollbackV18Migration` sends. */
  method RollbackCommands(source: Refs, promoted: Refs) returns (commands: seq<RefCommand>)
    ensures IsRollback(commands, source, promoted)
  {
    commands := RevertLines([], source, promoted);
    commands := ReviveLines(commands, source, promoted);
  }

  function RevertLine(source: Refs, n: RefName, promotedOid: Oid): RefCommand {
    if n in source then Update(n, source[n], promotedOid) else Delete(n, promotedOid)
  }

  method RevertLines(commands: seq<RefCommand>, source: Refs, promoted: Refs) returns (longer: seq<RefCommand>)
    ensures forall n ::
              Named(longer, n) == Named(commands, n)
                                  + (if n in promoted then [RevertLine(source, n, promoted[n])] else [])
  {
    hide Named;
    longer := commands;
    var entries := SortedEntries(promoted);
    for i := 0 to |entries|
      invariant forall n ::
                  Named(longer, n) == Named(commands, n)
                                      + (if Seen(entries, i, n) then [RevertLine(source, n, promoted[n])] else [])
    {
      longer := PushLine(longer, entries[i].0, [RevertLine(source, entries[i].0, entries[i].1)]);
    }
  }

  method ReviveLines(commands: seq<RefCommand>, source: Refs, promoted: Refs) returns (longer: seq<RefCommand>)
    ensures forall n ::
              Named(longer, n) == Named(commands, n)
                                  + (if n in source && n !in promoted then [Create(n, source[n])] else [])
  {
    hide Named;
    longer := commands;
    var entries := SortedEntries(source);
    for i := 0 to |entries|
      invariant forall n ::
                  Named(longer, n) == Named(commands, n)
                                      + (if Seen(entries, i, n) && n !in promoted then [Create(n, source[n])] else [])
    {
      longer := PushLine(longer, entries[i].0,
                         if entries[i].0 in promoted then [] else [Create(entries[i].0, entries[i].1)]);
    }
  }

  /** When the rollback goes through. */
  ghost predicate CanRollBack(refs: Refs, source: Refs, promoted: Refs) {
    && (forall n | n in promoted :: At(refs, n) == Some(promoted[n]))
    && (forall n | n in source && n !in promoted :: n !in refs)
  }

  function RolledBack(refs: Refs, source: Refs, promoted: Refs): Refs {
    (refs - promoted.Keys) + source
  }

  /** Exactly which stores accept the rollback, and what it leaves behind. */
  lemma RollbackApplies(refs: Refs, commands: seq<RefCommand>, source: Refs, promoted: Refs)
    requires IsRollback(commands, source, promoted)
    ensures Applicable(refs, commands) <==> CanRollBack(refs, source, promoted)
    ensures Applicable(refs, commands) ==> Applied(refs, commands) == RolledBack(refs, source, promoted)
  {
    ApplicableByName(refs, commands);
    if CanRollBack(refs, source, promoted) {
      forall n
        ensures AdmitsAll(refs, Named(commands, n))
      {
        assert Named(commands, n) == RollbackOf(source, promoted, n);
      }
    }
    if Applicable(refs, commands) {
      forall n
        ensures n in promoted ==> At(refs, n) == Some(promoted[n])
        ensures n in source && n !in promoted ==> n !in refs
        ensures At(Applied(refs, commands), n) == At(RolledBack(refs, source, promoted), n)
      {
        assert Named(commands, n) == RollbackOf(source, promoted, n);
        assert AdmitsAll(refs, Named(commands, n));
        AppliedByName(refs, commands, n);
      }
      SameEverywhere(Applied(refs, commands), RolledBack(refs, source, promoted));
    }
  }

  /** A ref the promotion creates, moves or retires. */
  predicate Touched(source: Refs, desired: Refs, n: RefName) {
    n in source || n in desired
  }

  /**
   Rollback undoes promotion. Whatever foreign processes did in between, it goes through
   exactly when no promoted ref moved and no retired ref reappeared; then every touched
   ref has its value from before the promotion and every other ref keeps its value.
   */
  lemma RollbackUndoesPromotion(refs: Refs, later: Refs, source: Refs, desired: Refs, recovery: Refs)
    requires CanPromote(refs, source, desired, recovery)
    ensures CanRollBack(later, source, desired)
       <==> forall n | Touched(source, desired, n) ::
              At(later, n) == At(Promoted(refs, source, desired, recovery), n)
    ensures CanRollBack(later, source, desired) ==>
              forall n :: At(RolledBack(later, source, desired), n)
                          == if Touched(source, desired, n) then At(refs, n) else At(later, n)
  {
    var after := Promoted(refs, source, desired, recovery);
    forall n | Touched(source, desired, n)
      ensures At(after, n) == if n in desired then Some(desired[n]) else None
    {
    }
    if forall n | Touched(source, desired, n) :: At(later, n) == At(after, n) {
      forall n | n in desired
        ensures At(later, n) == Some(desired[n])
      {
        assert Touched(source, desired, n);
      }
      forall n | n in source && n !in desired
        ensures n !in later
      {
        assert Touched(source, desired, n);
        assert At(later, n) == None;
      }
    }
  }

  /** With nobody else writing, promotion and rollback leave the old refs and the archive. */
  lemma RollbackLeavesTheArchive(refs: Refs, source: Refs, desired: Refs, recovery: Refs)
    requires CanPromote(refs, source, desired, recovery)
    ensures CanRollBack(Promoted(refs, source, desired, recovery), source, desired)
    ensures RolledBack(Promoted(refs, source, desired, recovery), source, desired) == refs + recovery
  {
    var after := Promoted(refs, source, desired, recovery);
    RollbackUndoesPromotion(refs, after, source, desired, recovery);
    forall n
      ensures At(RolledBack(after, source, desired), n) == At(refs + recovery, n)
    {
      if !Touched(source, desired, n) {
        assert At(after, n) == At(refs + recovery, n);
      }
    }
    SameEverywhere(RolledBack(after, source, desired), refs + recovery);
  }

  /**
   Promotion leaves exactly the desired refs in an area if and only if every ref that
   stood there was planned: a ref created after the inventory survives the transaction.
   */
  lemma PromotionReplacesAnAreaExactly(
    refs: Refs, source: Refs, desired: Refs, recovery: Refs, area: RefName -> bool)
    requires CanPromote(refs, source, desired, recovery)
    requires forall n | n in recovery :: !area(n)
    ensures (forall n | area(n) :: At(Promoted(refs, source, desired, recovery), n) == At(desired, n))
       <==> forall n | area(n) && n in refs :: n in source
  {
    var after := Promoted(refs, source, desired, recovery);
    if forall n | area(n) :: At(after, n) == At(desired, n) {
      forall n | area(n) && n in refs
        ensures n in source
      {
        assert At(after, n) == At(desired, n);
      }
    }
  }
}
