/**
 V18CheckpointSeed.ts: carrying a retained checkpoint over a rewritten history. The state's
 content registers are translated, its frontier and parents go through the commit map, and
 the result must be what replaying the rewritten history gives.
 */
module CheckpointSeed {
  import opened Wrappers
  import opened Text
  import opened PatchCommits
  import opened WriterChain
  import opened PatchTranslator
  import BundleMembers

  datatype EventId = EventId(lamport: nat, writer: string, patchSha: Sha, opIndex: nat)

  /** One operation of the history, with the storage of the patch it came in. */
  datatype Write = Write(event: EventId, op: Op, current: bool, encrypted: bool)

  datatype Register = Register(event: EventId, value: Value)

  /** A decoded property key: the node or edge, and the property's name. */
  datatype PropKey = PropKey(owner: string, name: string)

  type State = map<PropKey, Register>

  /** Which node or edge an operation writes a property of, if it writes one. */
  type OwnerOf = Op -> Option<string>

  /** Whether a new event takes a register from the event that holds it. */
  type Beats = (EventId, EventId) -> bool

  // ---------------------------------------------------------------- reduction

  function PropertyOf(owner: OwnerOf, op: Op): Option<PropKey> {
    if owner(op).Some? && "key" in op && op["key"].Str? && "value" in op then
      Some(PropKey(owner(op).value, op["key"].text))
    else None
  }

  /** Which write holds each property, for a reducer that looks at event ids alone. */
  function Winners(owner: OwnerOf, beats: Beats, writes: seq<Write>): (winners: map<PropKey, nat>)
    ensures forall k | k in winners :: winners[k] < |writes| && PropertyOf(owner, writes[winners[k]].op) == Some(k)
  {
    if writes == [] then map[]
    else
      var front, last := writes[..|writes| - 1], writes[|writes| - 1];
      var winners := Winners(owner, beats, front);
      match PropertyOf(owner, last.op)
      case None => winners
      case Some(k) =>
        if k in winners && !beats(last.event, front[winners[k]].event) then winners
        else winners[k := |writes| - 1]
  }

  function Reduced(owner: OwnerOf, beats: Beats, writes: seq<Write>): State {
    var winners := Winners(owner, beats, writes);
    map k | k in winners :: Register(writes[winners[k]].event, writes[winners[k]].op["value"])
  }

  /** Rewriting content never changes which property an operation writes. */
  ghost predicate OwnerIgnoresContent(owner: OwnerOf) {
    forall op, field, v | field == "value" || field == "oid" :: owner(With(op, field, v)) == owner(op)
  }

  function With(op: Op, field: string, v: Value): Op {
    op[field := v]
  }

  /** The same history after the rewrite: current patches untouched, the others rewritten. */
  ghost predicate RewrittenHistory(
    before: seq<Write>, after: seq<Write>, remap: EventId -> EventId, table: HandleTable, parses: string -> bool)
  {
    && |before| == |after|
    && forall i | 0 <= i < |before| ::
         && after[i].event == remap(before[i].event)
         && if before[i].current then after[i].op == before[i].op
            else Rewritten(before[i].op, after[i].op, before[i].encrypted, table, parses)
  }

  /** The rewrite keeps the order of any two events that compete for a property. */
  ghost predicate KeepsOrder(owner: OwnerOf, beats: Beats, remap: EventId -> EventId, writes: seq<Write>) {
    forall i, j | 0 <= j < i < |writes| && PropertyOf(owner, writes[i].op).Some?
                  && PropertyOf(owner, writes[i].op) == PropertyOf(owner, writes[j].op) ::
      beats(remap(writes[i].event), remap(writes[j].event)) == beats(writes[i].event, writes[j].event)
  }

  lemma SameProperty(owner: OwnerOf, op: Op, to: Op, encrypted: bool, table: HandleTable, parses: string -> bool)
    requires OwnerIgnoresContent(owner) && Rewritten(op, to, encrypted, table, parses)
    ensures PropertyOf(owner, to) == PropertyOf(owner, op)
    ensures PropertyOf(owner, op).Some? && PropertyOf(owner, op).value.name != "_content" ==>
              to["value"] == op["value"]
  {
    hide Resolved;
    if ContentField(op).Some? {
      var field := ContentField(op).value;
      assert to == With(op, field, to[field]);
    }
  }

  lemma Prefixes(
    owner: OwnerOf, beats: Beats, before: seq<Write>, after: seq<Write>, remap: EventId -> EventId,
    table: HandleTable, parses: string -> bool, n: nat)
    requires KeepsOrder(owner, beats, remap, before) && RewrittenHistory(before, after, remap, table, parses)
    requires n <= |before|
    ensures KeepsOrder(owner, beats, remap, before[..n])
    ensures RewrittenHistory(before[..n], after[..n], remap, table, parses)
  {
    hide Rewritten, PropertyOf;
  }

  /** Every property is held by the same write before and after. */
  lemma {:induction false} SameWinners(
    owner: OwnerOf, beats: Beats, before: seq<Write>, after: seq<Write>, remap: EventId -> EventId,
    table: HandleTable, parses: string -> bool)
    requires OwnerIgnoresContent(owner) && KeepsOrder(owner, beats, remap, before)
    requires RewrittenHistory(before, after, remap, table, parses)
    ensures Winners(owner, beats, after) == Winners(owner, beats, before)
  {
    hide Rewritten, OwnerIgnoresContent, PropertyOf, KeepsOrder;
    if before != [] {
      var last := |before| - 1;
      Prefixes(owner, beats, before, after, remap, table, parses, last);
      SameWinners(owner, beats, before[..last], after[..last], remap, table, parses);
      if !before[last].current {
        SameProperty(owner, before[last].op, after[last].op, before[last].encrypted, table, parses);
      }
      var winners, property := Winners(owner, beats, before[..last]), PropertyOf(owner, before[last].op);
      if property.Some? && property.value in winners {
        SameRace(owner, beats, before, remap, last, winners[property.value]);
      }
    }
  }

  lemma SameRace(
    owner: OwnerOf, beats: Beats, writes: seq<Write>, remap: EventId -> EventId, i: nat, j: nat)
    requires KeepsOrder(owner, beats, remap, writes)
    requires j < i < |writes| && PropertyOf(owner, writes[i].op).Some?
    requires PropertyOf(owner, writes[i].op) == PropertyOf(owner, writes[j].op)
    ensures beats(remap(writes[i].event), remap(writes[j].event)) == beats(writes[i].event, writes[j].event)
  {
    hide PropertyOf;
  }

  // -------------------------------------------------------- state translation

  function TranslatedRegister(k: PropKey, register: Register, table: HandleTable, parses: string -> bool)
    : Option<Register>
  {
    if k.name != "_content" then Some(register)
    else if !register.value.Str? then None
    else
      match TranslatedContentHandle(table, parses, register.value.text)
      case Success(handle) => Some(Register(register.event, Str(handle)))
      case Failure(_) => None
  }

  /** `translateV18CheckpointState`: only content registers change, and no event id does. */
  method TranslateCheckpointState(state: State, table: HandleTable, parses: string -> bool)
    returns (translated: Option<State>)
    ensures translated.Some? <==> forall k | k in state :: TranslatedRegister(k, state[k], table, parses).Some?
    ensures translated.Some? ==> translated.value.Keys == state.Keys
    ensures translated.Some? ==>
              forall k | k in state :: TranslatedRegister(k, state[k], table, parses) == Some(translated.value[k])
  {
    hide TranslatedRegister;
    var props: State := map[];
    var todo := state.Keys;
    while todo != {}
      invariant todo <= state.Keys && props.Keys == state.Keys - todo
      invariant forall k | k in props :: TranslatedRegister(k, state[k], table, parses) == Some(props[k])
      decreases |todo|
    {
      var k :| k in todo;
      var register := TranslatedRegister(k, state[k], table, parses);
      if register.None? {
        return None;
      }
      props := props[k := register.value];
      todo := todo - {k};
    }
    translated := Some(props);
  }

  /** Translating the old state gives the replayed one, event ids renamed with their patches. */
  ghost predicate Agree(
    earlier: State, replayed: State, remap: EventId -> EventId, table: HandleTable, parses: string -> bool)
  {
    && earlier.Keys == replayed.Keys
    && forall k | k in earlier :: RegistersAgree(k, earlier[k], replayed[k], remap, table, parses)
  }

  ghost predicate RegistersAgree(
    k: PropKey, earlier: Register, replayed: Register, remap: EventId -> EventId, table: HandleTable,
    parses: string -> bool)
  {
    var translated := TranslatedRegister(k, earlier, table, parses);
    translated.Some? && replayed == Register(remap(translated.value.event), translated.value.value)
  }

  predicate Unambiguous(table: HandleTable, reference: string) {
    var clear, secret := ContentCacheKey(reference, false), ContentCacheKey(reference, true);
    clear in table && secret in table ==> table[clear] == table[secret]
  }

  /**
   A content write survives the translation: a rewritten one unless both encryption modes
   were used with different handles, a current one only if it holds a handle already.
   */
  predicate Survives(w: Write, table: HandleTable, parses: string -> bool) {
    && "value" in w.op && w.op["value"].Str?
    && if w.current then !IsOid(w.op["value"].text) && parses(w.op["value"].text)
       else IsOid(w.op["value"].text) ==> Unambiguous(table, w.op["value"].text)
  }

  /** Handles are not themselves object ids. */
  ghost predicate HandlesAreNotOids(table: HandleTable) {
    forall k | k in table :: !IsOid(table[k])
  }

  lemma OneRegister(
    owner: OwnerOf, k: PropKey, before: Write, after: Write, remap: EventId -> EventId, table: HandleTable,
    parses: string -> bool)
    requires OwnerIgnoresContent(owner) && HandlesAreNotOids(table)
    requires PropertyOf(owner, before.op) == Some(k) == PropertyOf(owner, after.op)
    requires after.event == remap(before.event)
    requires if before.current then after.op == before.op
             else Rewritten(before.op, after.op, before.encrypted, table, parses)
    ensures RegistersAgree(k, Register(before.event, before.op["value"]), Register(after.event, after.op["value"]),
                           remap, table, parses)
       <==> (k.name == "_content" ==> Survives(before, table, parses))
  {
    hide ContentCacheKey, IsOid;
    if k.name != "_content" && !before.current {
      SameProperty(owner, before.op, after.op, before.encrypted, table, parses);
    }
  }

  /** With the same winners only the content registers can disagree. */
  lemma SameWinnersCommute(
    owner: OwnerOf, beats: Beats, before: seq<Write>, after: seq<Write>, remap: EventId -> EventId,
    table: HandleTable, parses: string -> bool)
    requires OwnerIgnoresContent(owner) && HandlesAreNotOids(table)
    requires RewrittenHistory(before, after, remap, table, parses)
    requires Winners(owner, beats, after) == Winners(owner, beats, before)
    ensures Agree(Reduced(owner, beats, before), Reduced(owner, beats, after), remap, table, parses)
       <==> WinningContentSurvives(owner, beats, before, table, parses)
  {
    hide Rewritten, OwnerIgnoresContent, PropertyOf, Winners, Survives, RegistersAgree;
    var winners := Winners(owner, beats, before);
    forall k | k in winners
      ensures RegistersAgree(k, Reduced(owner, beats, before)[k], Reduced(owner, beats, after)[k], remap, table, parses)
         <==> (k.name == "_content" ==> Survives(before[winners[k]], table, parses))
    {
      OneRegister(owner, k, before[winners[k]], after[winners[k]], remap, table, parses);
    }
  }

  predicate WinningContentSurvives(
    owner: OwnerOf, beats: Beats, writes: seq<Write>, table: HandleTable, parses: string -> bool)
  {
    var winners := Winners(owner, beats, writes);
    forall k | k in winners && k.name == "_content" :: Survives(writes[winners[k]], table, parses)
  }

  /**
   For any reducer whose order of competing events the rewrite keeps, reducing the rewritten
   history equals translating the reduced state exactly when every content register that wins
   survives the translation. A legacy register fails only if its object has two handles; a
   register of a current patch fails if it still names an object.
   */
  lemma ReductionCommutes(
    owner: OwnerOf, beats: Beats, before: seq<Write>, after: seq<Write>, remap: EventId -> EventId,
    table: HandleTable, parses: string -> bool)
    requires OwnerIgnoresContent(owner) && HandlesAreNotOids(table)
    requires RewrittenHistory(before, after, remap, table, parses) && KeepsOrder(owner, beats, remap, before)
    ensures Agree(Reduced(owner, beats, before), Reduced(owner, beats, after), remap, table, parses)
       <==> WinningContentSurvives(owner, beats, before, table, parses)
  {
    hide OwnerIgnoresContent, RewrittenHistory, KeepsOrder, Winners, Survives, Agree, Reduced;
    SameWinners(owner, beats, before, after, remap, table, parses);
    SameWinnersCommute(owner, beats, before, after, remap, table, parses);
  }

  /** A current patch that still names an object breaks the agreement. */
  lemma CurrentObjectReferencesDisagree(oid: string, event: EventId, parses: string -> bool)
    requires IsOid(oid)
    ensures var owner: OwnerOf := op => Some("node");
            var beats: Beats := (a, b) => true;
            var op: Op := map["key" := Str("_content"), "value" := Str(oid)];
            var history := [Write(event, op, true, false)];
            var table: HandleTable := map[ContentCacheKey(oid, false) := "asset"];
            && OwnerIgnoresContent(owner) && RewrittenHistory(history, history, e => e, table, parses)
            && TranslatedContentHandle(table, parses, oid).Success?
            && !Agree(Reduced(owner, beats, history), Reduced(owner, beats, history), e => e, table, parses)
  {
    var owner: OwnerOf := op => Some("node");
    var beats: Beats := (a, b) => true;
    var op: Op := map["key" := Str("_content"), "value" := Str(oid)];
    var history := [Write(event, op, true, false)];
    var table: HandleTable := map[ContentCacheKey(oid, false) := "asset"];
    ContentCacheKeyDiffers(oid);
    assert history[..0] == [];
    assert Winners(owner, beats, history[..0]) == map[];
    var k := PropKey("node", "_content");
    assert k in Reduced(owner, beats, history);
    assert !IsOid("asset");
  }

  lemma ContentCacheKeyDiffers(reference: string)
    ensures ContentCacheKey(reference, false) != ContentCacheKey(reference, true)
  {
    if ContentCacheKey(reference, false) == ContentCacheKey(reference, true) {
      ContentCacheKeyInjective(reference, reference, false, true);
    }
  }

  // ------------------------------------------------------------------- events

  /** `compareEventIds(a, b) > 0`, for any order on strings. */
  predicate Greater(less: (string, string) -> bool, a: EventId, b: EventId) {
    if a.lamport != b.lamport then b.lamport < a.lamport
    else if a.writer != b.writer then !less(a.writer, b.writer)
    else if a.patchSha != b.patchSha then !less(a.patchSha, b.patchSha)
    else b.opIndex < a.opIndex
  }

  /** The reducer's order: the greater event takes the register. */
  function ByEventId(less: (string, string) -> bool): Beats {
    (a, b) => Greater(less, a, b)
  }

  ghost predicate StrictTotalOrder(less: (string, string) -> bool) {
    && (forall a, b :: less(a, b) ==> !less(b, a))
    && (forall a, b :: a == b || less(a, b) || less(b, a))
    && forall a, b, c :: less(a, b) && less(b, c) ==> less(a, c)
  }

  /** The code-unit order that compares strings is one. */
  lemma CodeUnitOrderIsStrictAndTotal()
    ensures StrictTotalOrder((a, b) => BundleMembers.Less(a, b))
  {
    forall a: string, b: string
      ensures BundleMembers.Less(a, b) ==> !BundleMembers.Less(b, a)
      ensures a == b || BundleMembers.Less(a, b) || BundleMembers.Less(b, a)
    {
      LessOneWay(a, b);
    }
    forall a: string, b: string, c: string
      ensures BundleMembers.Less(a, b) && BundleMembers.Less(b, c) ==> BundleMembers.Less(a, c)
    {
      LessChains(a, b, c);
    }
  }

  lemma {:induction false} LessOneWay(a: string, b: string)
    ensures BundleMembers.Less(a, b) ==> !BundleMembers.Less(b, a)
    ensures a == b || BundleMembers.Less(a, b) || BundleMembers.Less(b, a)
  {
    if a != "" && b != "" {
      LessOneWay(a[1..], b[1..]);
      assert a == [a[0]] + a[1..] && b == [b[0]] + b[1..];
    }
  }

  lemma {:induction false} LessChains(a: string, b: string, c: string)
    ensures BundleMembers.Less(a, b) && BundleMembers.Less(b, c) ==> BundleMembers.Less(a, c)
  {
    if a != "" && b != "" && c != "" {
      LessChains(a[1..], b[1..], c[1..]);
    }
  }

  /** The events a replay of the rewritten history assigns: the patch has a new name. */
  function Renamed(commitMap: map<Sha, Sha>, e: EventId): EventId {
    if e.patchSha in commitMap then e.(patchSha := commitMap[e.patchSha]) else e
  }

  function Renaming(commitMap: map<Sha, Sha>): EventId -> EventId {
    e => Renamed(commitMap, e)
  }

  predicate Competes(owner: OwnerOf, x: Write, y: Write) {
    PropertyOf(owner, x.op).Some? && PropertyOf(owner, x.op) == PropertyOf(owner, y.op)
  }

  /** Different patches of the history get different names. */
  predicate KeepsPatchesApart(commitMap: map<Sha, Sha>, writes: seq<Write>) {
    forall i, j | 0 <= j < i < |writes| && writes[i].event.patchSha != writes[j].event.patchSha ::
      Renamed(commitMap, writes[i].event).patchSha != Renamed(commitMap, writes[j].event).patchSha
  }

  /** Two patches of one writer and one Lamport time that write the same property. */
  predicate TiedByLamport(owner: OwnerOf, x: Write, y: Write) {
    && Competes(owner, x, y) && x.event.patchSha != y.event.patchSha
    && x.event.lamport == y.event.lamport && x.event.writer == y.event.writer
  }

  /** The names of tied patches stand in the same order after the renaming as before. */
  predicate TiesKeepTheirOrder(
    owner: OwnerOf, less: (string, string) -> bool, commitMap: map<Sha, Sha>, writes: seq<Write>)
  {
    forall i, j | 0 <= j < i < |writes| && TiedByLamport(owner, writes[i], writes[j]) ::
      less(Renamed(commitMap, writes[i].event).patchSha, Renamed(commitMap, writes[j].event).patchSha)
      == less(writes[i].event.patchSha, writes[j].event.patchSha)
  }

  /**
   Renaming patches keeps the order of all events that compete for a property exactly when
   it keeps the order of the names of tied patches.
   */
  lemma RenamingKeepsOrder(
    owner: OwnerOf, less: (string, string) -> bool, commitMap: map<Sha, Sha>, writes: seq<Write>)
    requires KeepsPatchesApart(commitMap, writes)
    ensures KeepsOrder(owner, ByEventId(less), Renaming(commitMap), writes)
       <==> TiesKeepTheirOrder(owner, less, commitMap, writes)
  {
    hide PropertyOf;
  }

  /** The commit map of a rewrite keeps all patches of the history apart. */
  lemma RewritesKeepPatchesApart(
    before: Reader, after: Reader, graph: string, rewrites: seq<Rewrite>, commitMap: map<Sha, Sha>,
    writes: seq<Write>)
    requires AllCarried(before, after, graph, rewrites) && MapsRewrites(commitMap, rewrites)
    requires forall w | w in writes :: w.event.patchSha in commitMap
    ensures KeepsPatchesApart(commitMap, writes)
  {
    hide AllCarried, MapsRewrites;
    forall i, j | 0 <= j < i < |writes| && writes[i].event.patchSha != writes[j].event.patchSha
      ensures Renamed(commitMap, writes[i].event).patchSha != Renamed(commitMap, writes[j].event).patchSha
    {
      var s, t := writes[i].event.patchSha, writes[j].event.patchSha;
      assert writes[i] in writes && writes[j] in writes;
      if commitMap[s] == commitMap[t] {
        CommitMapInjective(before, after, graph, rewrites, commitMap, s, t);
      }
    }
  }

  /** No writer uses one Lamport time in two patches. */
  predicate LamportsNamePatches(writes: seq<Write>) {
    forall i, j | 0 <= j < i < |writes| && writes[i].event.lamport == writes[j].event.lamport
                  && writes[i].event.writer == writes[j].event.writer ::
      writes[i].event.patchSha == writes[j].event.patchSha
  }

  /** Then nothing is tied, and every winner stays. */
  lemma OneLamportPerPatchKeepsWinners(
    owner: OwnerOf, less: (string, string) -> bool, commitMap: map<Sha, Sha>, before: seq<Write>, after: seq<Write>,
    table: HandleTable, parses: string -> bool)
    requires LamportsNamePatches(before) && OwnerIgnoresContent(owner)
    requires RewrittenHistory(before, after, Renaming(commitMap), table, parses)
    ensures Winners(owner, ByEventId(less), after) == Winners(owner, ByEventId(less), before)
  {
    hide Rewritten, OwnerIgnoresContent, PropertyOf, Winners;
    SameWinners(owner, ByEventId(less), before, after, Renaming(commitMap), table, parses);
  }

  // ------------------------------------------------- which renamings keep the winners

  /** A write's event is greater than that of every earlier competitor, and not less than any later one's. */
  predicate Leads(owner: OwnerOf, less: (string, string) -> bool, writes: seq<Write>, w: nat) {
    w < |writes|
    && forall i | 0 <= i < |writes| && Competes(owner, writes[w], writes[i]) ::
         if i < w then Greater(less, writes[w].event, writes[i].event)
         else !Greater(less, writes[i].event, writes[w].event)
  }

  lemma GreaterChains(less: (string, string) -> bool, a: EventId, b: EventId, c: EventId)
    requires StrictTotalOrder(less) && Greater(less, a, b) && !Greater(less, c, b)
    ensures Greater(less, a, c)
  {
  }

  lemma GreaterOneWay(less: (string, string) -> bool, a: EventId, b: EventId)
    requires StrictTotalOrder(less) && Greater(less, a, b)
    ensures !Greater(less, b, a)
  {
  }

  /** One more write: it leads its property if it beats the one that led, which leads on otherwise. */
  lemma LeadsOn(owner: OwnerOf, less: (string, string) -> bool, writes: seq<Write>, w: nat)
    requires StrictTotalOrder(less) && writes != []
    requires Leads(owner, less, writes[..|writes| - 1], w) && Competes(owner, writes[w], writes[|writes| - 1])
    ensures var last := |writes| - 1;
            Leads(owner, less, writes, if Greater(less, writes[last].event, writes[w].event) then last else w)
  {
    hide PropertyOf, Greater, StrictTotalOrder;
    var front, last := writes[..|writes| - 1], |writes| - 1;
    if Greater(less, writes[last].event, writes[w].event) {
      forall i | 0 <= i < last && Competes(owner, writes[last], writes[i])
        ensures Greater(less, writes[last].event, writes[i].event)
      {
        assert front[i] == writes[i] && front[w] == writes[w];
        if i < w {
          GreaterOneWay(less, writes[w].event, writes[i].event);
        }
        GreaterChains(less, writes[last].event, writes[w].event, writes[i].event);
      }
      if Greater(less, writes[last].event, writes[last].event) {
        GreaterOneWay(less, writes[last].event, writes[last].event);
      }
    } else {
      forall i | 0 <= i < last
        ensures front[i] == writes[i]
      {
      }
    }
  }

  lemma FirstLeads(owner: OwnerOf, less: (string, string) -> bool, writes: seq<Write>)
    requires StrictTotalOrder(less) && writes != []
    requires forall i | 0 <= i < |writes| - 1 :: !Competes(owner, writes[|writes| - 1], writes[i])
    ensures Leads(owner, less, writes, |writes| - 1)
  {
    hide PropertyOf;
  }

  lemma LeadsAlongside(owner: OwnerOf, less: (string, string) -> bool, writes: seq<Write>, w: nat)
    requires writes != [] && Leads(owner, less, writes[..|writes| - 1], w)
    requires !Competes(owner, writes[w], writes[|writes| - 1])
    ensures Leads(owner, less, writes, w)
  {
    hide PropertyOf, Greater;
    var front := writes[..|writes| - 1];
    assert forall i | 0 <= i < |front| :: front[i] == writes[i];
  }

  /** The holder of a property is the write that leads it, and every property written has one. */
  lemma {:induction false} WinnersLead(owner: OwnerOf, less: (string, string) -> bool, writes: seq<Write>)
    requires StrictTotalOrder(less)
    ensures forall i | 0 <= i < |writes| && PropertyOf(owner, writes[i].op).Some? ::
              PropertyOf(owner, writes[i].op).value in Winners(owner, ByEventId(less), writes)
    ensures forall k | k in Winners(owner, ByEventId(less), writes) ::
              Leads(owner, less, writes, Winners(owner, ByEventId(less), writes)[k])
  {
    hide PropertyOf, Greater, StrictTotalOrder, Leads;
    if writes != [] {
      var front, last := writes[..|writes| - 1], |writes| - 1;
      WinnersLead(owner, less, front);
      var earlier, winners := Winners(owner, ByEventId(less), front), Winners(owner, ByEventId(less), writes);
      assert forall i | 0 <= i < last :: front[i] == writes[i];
      forall k | k in winners
        ensures Leads(owner, less, writes, winners[k])
      {
        if PropertyOf(owner, writes[last].op) != Some(k) {
          LeadsAlongside(owner, less, writes, earlier[k]);
        } else if k in earlier {
          LeadsOn(owner, less, writes, earlier[k]);
        } else {
          FirstLeads(owner, less, writes);
        }
      }
    }
  }

  /** An operation that writes one property of one node or edge. */
  predicate WritesProperty(owner: OwnerOf, op: Op, k: PropKey) {
    owner(op) == Some(k.owner) && "key" in op && op["key"] == Str(k.name) && "value" in op
  }

  /** The later event: the greater Lamport time, then writer, then patch, then operation. */
  predicate AtLeast(less: (string, string) -> bool, later: EventId, e: EventId) {
    || e.lamport < later.lamport
    || (e.lamport == later.lamport
        && (|| less(e.writer, later.writer)
            || (e.writer == later.writer
                && (|| less(e.patchSha, later.patchSha)
                    || (e.patchSha == later.patchSha && e.opIndex <= later.opIndex)))))
  }

  lemma NotBeaten(less: (string, string) -> bool, a: EventId, b: EventId)
    requires StrictTotalOrder(less)
    ensures Greater(less, a, b) <==> AtLeast(less, a, b) && a != b
    ensures !Greater(less, b, a) <==> AtLeast(less, a, b)
  {
  }

  /**
   The reduced state has a register for every property written and for no other: the event
   and the value of the write with the greatest Lamport time, among those the greatest
   writer, then the greatest patch name, then the greatest operation index.
   */
  lemma ReducedExactly(owner: OwnerOf, less: (string, string) -> bool, writes: seq<Write>, k: PropKey)
    requires StrictTotalOrder(less)
    ensures k in Reduced(owner, ByEventId(less), writes)
       <==> exists i: nat :: i < |writes| && WritesProperty(owner, writes[i].op, k)
    ensures k in Reduced(owner, ByEventId(less), writes) ==>
              exists w: nat ::
                && w < |writes| && WritesProperty(owner, writes[w].op, k)
                && Winners(owner, ByEventId(less), writes)[k] == w
                && Reduced(owner, ByEventId(less), writes)[k] == Register(writes[w].event, writes[w].op["value"])
                && forall i: nat | i < |writes| && WritesProperty(owner, writes[i].op, k) ::
                     AtLeast(less, writes[w].event, writes[i].event)
                     && (writes[i].event == writes[w].event ==> w <= i)
  {
    hide StrictTotalOrder, Greater, Winners;
    WinnersLead(owner, less, writes);
    forall i: nat | i < |writes|
      ensures WritesProperty(owner, writes[i].op, k) <==> PropertyOf(owner, writes[i].op) == Some(k)
    {
    }
    if k in Winners(owner, ByEventId(less), writes) {
      var w := Winners(owner, ByEventId(less), writes)[k];
      forall i: nat | i < |writes| && WritesProperty(owner, writes[i].op, k)
        ensures AtLeast(less, writes[w].event, writes[i].event)
        ensures writes[i].event == writes[w].event ==> w <= i
      {
        assert Competes(owner, writes[w], writes[i]);
        NotBeaten(less, writes[w].event, writes[i].event);
      }
      assert WritesProperty(owner, writes[w].op, k);
    }
  }

  /** Two competing writes cannot both lead. */
  lemma OneLeader(owner: OwnerOf, less: (string, string) -> bool, writes: seq<Write>, v: nat, w: nat)
    requires Leads(owner, less, writes, v) && Leads(owner, less, writes, w) && Competes(owner, writes[v], writes[w])
    ensures v == w
  {
    hide PropertyOf, Greater;
  }

  /** Every tied competitor of a holder has the lesser new name. */
  predicate HoldersOutrankTheirTies(
    owner: OwnerOf, less: (string, string) -> bool, commitMap: map<Sha, Sha>, writes: seq<Write>)
  {
    var winners := Winners(owner, ByEventId(less), writes);
    forall k, i | k in winners && 0 <= i < |writes| && TiedByLamport(owner, writes[winners[k]], writes[i]) ::
      less(Renamed(commitMap, writes[i].event).patchSha, Renamed(commitMap, writes[winners[k]].event).patchSha)
  }

  /** A leader still leads after the renaming exactly if its tied competitors have lesser new names. */
  lemma LeadsAfterRenaming(
    owner: OwnerOf, less: (string, string) -> bool, commitMap: map<Sha, Sha>, before: seq<Write>, after: seq<Write>,
    table: HandleTable, parses: string -> bool, w: nat)
    requires StrictTotalOrder(less) && KeepsPatchesApart(commitMap, before) && OwnerIgnoresContent(owner)
    requires RewrittenHistory(before, after, Renaming(commitMap), table, parses)
    requires Leads(owner, less, before, w)
    ensures Leads(owner, less, after, w)
       <==> forall i | 0 <= i < |before| && TiedByLamport(owner, before[w], before[i]) ::
              less(Renamed(commitMap, before[i].event).patchSha, Renamed(commitMap, before[w].event).patchSha)
  {
    hide PropertyOf, Rewritten, OwnerIgnoresContent;
    SameProperties(owner, before, after, Renaming(commitMap), table, parses);
  }

  lemma SameProperties(
    owner: OwnerOf, before: seq<Write>, after: seq<Write>, remap: EventId -> EventId, table: HandleTable,
    parses: string -> bool)
    requires OwnerIgnoresContent(owner) && RewrittenHistory(before, after, remap, table, parses)
    ensures forall i | 0 <= i < |before| :: PropertyOf(owner, after[i].op) == PropertyOf(owner, before[i].op)
  {
    hide Rewritten, OwnerIgnoresContent, PropertyOf;
    forall i | 0 <= i < |before|
      ensures PropertyOf(owner, after[i].op) == PropertyOf(owner, before[i].op)
    {
      if !before[i].current {
        SameProperty(owner, before[i].op, after[i].op, before[i].encrypted, table, parses);
      }
    }
  }

  /** Before and after, the same properties are held. */
  lemma SamePropertiesHeld(
    owner: OwnerOf, less: (string, string) -> bool, before: seq<Write>, after: seq<Write>, remap: EventId -> EventId,
    table: HandleTable, parses: string -> bool)
    requires StrictTotalOrder(less) && OwnerIgnoresContent(owner)
    requires RewrittenHistory(before, after, remap, table, parses)
    ensures Winners(owner, ByEventId(less), after).Keys == Winners(owner, ByEventId(less), before).Keys
  {
    hide PropertyOf, OwnerIgnoresContent, StrictTotalOrder, Winners, Rewritten;
    SameProperties(owner, before, after, remap, table, parses);
    WinnersLead(owner, less, before);
    WinnersLead(owner, less, after);
  }

  /**
   The renaming changes the holder of no property exactly when every patch tied with a holder
   has the lesser new name. Ties between writes that both lose do not matter.
   */
  lemma WinnersStayExactly(
    owner: OwnerOf, less: (string, string) -> bool, commitMap: map<Sha, Sha>, before: seq<Write>, after: seq<Write>,
    table: HandleTable, parses: string -> bool)
    requires StrictTotalOrder(less) && KeepsPatchesApart(commitMap, before) && OwnerIgnoresContent(owner)
    requires RewrittenHistory(before, after, Renaming(commitMap), table, parses)
    ensures Winners(owner, ByEventId(less), after) == Winners(owner, ByEventId(less), before)
       <==> HoldersOutrankTheirTies(owner, less, commitMap, before)
  {
    hide PropertyOf, OwnerIgnoresContent, StrictTotalOrder, KeepsPatchesApart, RewrittenHistory, Leads, Winners,
         TiedByLamport;
    var winners, renamed := Winners(owner, ByEventId(less), before), Winners(owner, ByEventId(less), after);
    SamePropertiesHeld(owner, less, before, after, Renaming(commitMap), table, parses);
    WinnersLead(owner, less, before);
    WinnersLead(owner, less, after);
    forall k | k in winners
      ensures renamed[k] == winners[k] <==> Leads(owner, less, after, winners[k])
    {
      if Leads(owner, less, after, winners[k]) {
        HolderIs(owner, before, after, Renaming(commitMap), table, parses, winners[k]);
        OneLeader(owner, less, after, winners[k], renamed[k]);
      }
    }
    forall k | k in winners
      ensures Leads(owner, less, after, winners[k])
         <==> forall i | 0 <= i < |before| && TiedByLamport(owner, before[winners[k]], before[i]) ::
                less(Renamed(commitMap, before[i].event).patchSha,
                     Renamed(commitMap, before[winners[k]].event).patchSha)
    {
      LeadsAfterRenaming(owner, less, commitMap, before, after, table, parses, winners[k]);
    }
  }

  lemma HolderIs(
    owner: OwnerOf, before: seq<Write>, after: seq<Write>, remap: EventId -> EventId, table: HandleTable,
    parses: string -> bool, w: nat)
    requires OwnerIgnoresContent(owner) && RewrittenHistory(before, after, remap, table, parses) && w < |before|
    ensures |after| == |before| && PropertyOf(owner, after[w].op) == PropertyOf(owner, before[w].op)
    ensures after[w].event == remap(before[w].event)
  {
    hide PropertyOf, OwnerIgnoresContent, Rewritten;
    SameProperties(owner, before, after, remap, table, parses);
  }

  /** Registers with the same event, renamed, come from the same write. */
  lemma SameEventSameHolder(
    owner: OwnerOf, less: (string, string) -> bool, commitMap: map<Sha, Sha>, before: seq<Write>, after: seq<Write>,
    table: HandleTable, parses: string -> bool, k: PropKey)
    requires StrictTotalOrder(less) && KeepsPatchesApart(commitMap, before) && OwnerIgnoresContent(owner)
    requires RewrittenHistory(before, after, Renaming(commitMap), table, parses)
    requires k in Winners(owner, ByEventId(less), before) && k in Winners(owner, ByEventId(less), after)
    requires after[Winners(owner, ByEventId(less), after)[k]].event
          == Renamed(commitMap, before[Winners(owner, ByEventId(less), before)[k]].event)
    ensures Winners(owner, ByEventId(less), after)[k] == Winners(owner, ByEventId(less), before)[k]
  {
    hide PropertyOf, OwnerIgnoresContent, StrictTotalOrder, RewrittenHistory, Winners, KeepsPatchesApart, Renamed, Leads;
    var w, v := Winners(owner, ByEventId(less), before)[k], Winners(owner, ByEventId(less), after)[k];
    WinnersLead(owner, less, before);
    WinnersLead(owner, less, after);
    HolderIs(owner, before, after, Renaming(commitMap), table, parses, w);
    HolderIs(owner, before, after, Renaming(commitMap), table, parses, v);
    RenamingIsInjective(commitMap, before, v, w);
    LeadersOfOneEvent(owner, less, before, after, v, w);
  }

  lemma RenamingIsInjective(commitMap: map<Sha, Sha>, writes: seq<Write>, v: nat, w: nat)
    requires KeepsPatchesApart(commitMap, writes) && v < |writes| && w < |writes|
    requires Renamed(commitMap, writes[v].event) == Renamed(commitMap, writes[w].event)
    ensures writes[v].event == writes[w].event
  {
  }

  /** Of writes with one event the first leads, before as after. */
  lemma LeadersOfOneEvent(
    owner: OwnerOf, less: (string, string) -> bool, before: seq<Write>, after: seq<Write>, v: nat, w: nat)
    requires Leads(owner, less, before, w) && Leads(owner, less, after, v)
    requires v < |before| && w < |after| && Competes(owner, before[w], before[v]) && Competes(owner, after[v], after[w])
    requires before[v].event == before[w].event && after[v].event == after[w].event
    ensures v == w
  {
    hide PropertyOf;
  }

  /**
   With the reducer's own order: translating the reduced state gives what reducing the
   rewritten history gives, events renamed with their patches, exactly when every patch tied
   with a holder has the lesser new name and every content register that wins survives.
   */
  lemma SeedEqualsReplayExactly(
    owner: OwnerOf, less: (string, string) -> bool, commitMap: map<Sha, Sha>, before: seq<Write>, after: seq<Write>,
    table: HandleTable, parses: string -> bool)
    requires StrictTotalOrder(less) && KeepsPatchesApart(commitMap, before) && OwnerIgnoresContent(owner)
    requires RewrittenHistory(before, after, Renaming(commitMap), table, parses) && HandlesAreNotOids(table)
    ensures Agree(Reduced(owner, ByEventId(less), before), Reduced(owner, ByEventId(less), after), Renaming(commitMap),
                  table, parses)
       <==> && HoldersOutrankTheirTies(owner, less, commitMap, before)
            && WinningContentSurvives(owner, ByEventId(less), before, table, parses)
  {
    hide OwnerIgnoresContent, StrictTotalOrder, KeepsPatchesApart, RewrittenHistory, Winners, HandlesAreNotOids,
         HoldersOutrankTheirTies, WinningContentSurvives;
    WinnersStayExactly(owner, less, commitMap, before, after, table, parses);
    var winners, renamed := Winners(owner, ByEventId(less), before), Winners(owner, ByEventId(less), after);
    if winners == renamed {
      SameWinnersCommute(owner, ByEventId(less), before, after, Renaming(commitMap), table, parses);
    } else if Agree(Reduced(owner, ByEventId(less), before), Reduced(owner, ByEventId(less), after),
                    Renaming(commitMap), table, parses) {
      AgreeingWinners(owner, less, commitMap, before, after, table, parses);
      assert false;
    }
  }

  lemma AgreeingEvents(
    k: PropKey, earlier: Register, replayed: Register, remap: EventId -> EventId, table: HandleTable,
    parses: string -> bool)
    requires RegistersAgree(k, earlier, replayed, remap, table, parses)
    ensures replayed.event == remap(earlier.event)
  {
  }

  lemma AgreeingWinners(
    owner: OwnerOf, less: (string, string) -> bool, commitMap: map<Sha, Sha>, before: seq<Write>, after: seq<Write>,
    table: HandleTable, parses: string -> bool)
    requires StrictTotalOrder(less) && KeepsPatchesApart(commitMap, before) && OwnerIgnoresContent(owner)
    requires RewrittenHistory(before, after, Renaming(commitMap), table, parses)
    requires Agree(Reduced(owner, ByEventId(less), before), Reduced(owner, ByEventId(less), after),
                   Renaming(commitMap), table, parses)
    ensures Winners(owner, ByEventId(less), after) == Winners(owner, ByEventId(less), before)
  {
    hide OwnerIgnoresContent, StrictTotalOrder, KeepsPatchesApart, RewrittenHistory, PropertyOf, Winners,
         RegistersAgree;
    var earlier, later := Reduced(owner, ByEventId(less), before), Reduced(owner, ByEventId(less), after);
    var winners, renamed := Winners(owner, ByEventId(less), before), Winners(owner, ByEventId(less), after);
    assert winners.Keys == earlier.Keys && renamed.Keys == later.Keys;
    forall k | k in winners
      ensures renamed[k] == winners[k]
    {
      AgreeingEvents(k, earlier[k], later[k], Renaming(commitMap), table, parses);
      SameEventSameHolder(owner, less, commitMap, before, after, table, parses, k);
    }
  }

  /**
   A chain of two commits that reuse a Lamport time, the first of them legacy, is a chain like
   any other. If the names its rewrite gives stand in the other order, the property both
   commits write changes its holder.
   */
  lemma ReusedLamportsFlipTheWinner(
    read: Reader, reread: Reader, graph: string, writer: string, a: Sha, b: Sha, c: Sha, d: Sha,
    less: (string, string) -> bool, owner: OwnerOf, first: Op, second: Op, table: HandleTable, parses: string -> bool)
    requires IsOid(a) && IsOid(b) && IsOid(c) && IsOid(d)
    requires read(a).Some? && read(a).value.graph == graph && read(a).value.writer == writer
    requires read(b).Some? && read(b).value.graph == graph && read(b).value.writer == writer
    requires read(a).value.Parent() == None && read(b).value.Parent() == Some(a)
    requires read(a).value.lamport == read(b).value.lamport
    requires !CurrentAt(read, a) && CurrentAt(read, b)
    requires reread(d).Some? && SamePatch(read(a).value, reread(d).value) && reread(d).value.Parent() == None
    requires reread(c).Some? && SamePatch(read(b).value, reread(c).value) && reread(c).value.Parent() == Some(d)
    requires a != d && less(a, b) && !less(b, a) && less(c, d) && !less(d, c)
    requires OwnerIgnoresContent(owner) && ContentField(first).None?
    requires PropertyOf(owner, first).Some? && PropertyOf(owner, first) == PropertyOf(owner, second)
    ensures IsChain(read, graph, writer, [a, b])
    ensures var rewrites, commitMap := [Rewrite(writer, [a, b], [d, c])], map[a := d, b := c];
            AllCarried(read, reread, graph, rewrites) && MapsRewrites(commitMap, rewrites)
    ensures var x, y := read(a).value, read(b).value;
            var commitMap := map[a := d, b := c];
            var before := [Write(EventId(x.lamport, writer, a, 0), first, false, x.storage.Encrypted()),
                           Write(EventId(y.lamport, writer, b, 0), second, true, y.storage.Encrypted())];
            var after := [Write(EventId(x.lamport, writer, d, 0), first, true, x.storage.Encrypted()),
                          Write(EventId(y.lamport, writer, c, 0), second, true, y.storage.Encrypted())];
            && RewrittenHistory(before, after, Renaming(commitMap), table, parses)
            && Winners(owner, ByEventId(less), before) != Winners(owner, ByEventId(less), after)
  {
    hide PropertyOf, IsOid, OwnerIgnoresContent, IsChain, AllCarried, MapsRewrites, SamePatch, CurrentAt, Winners;
    TwoCommitsCarried(read, reread, graph, writer, a, b, c, d);
    var lamport := read(a).value.lamport;
    var x := Write(EventId(lamport, writer, a, 0), first, false, read(a).value.storage.Encrypted());
    var y := Write(EventId(lamport, writer, b, 0), second, true, read(b).value.storage.Encrypted());
    var v := x.(event := EventId(lamport, writer, d, 0), current := true);
    var w := y.(event := EventId(lamport, writer, c, 0));
    WinnerOfTwo(owner, ByEventId(less), x, y);
    WinnerOfTwo(owner, ByEventId(less), v, w);
    assert Winners(owner, ByEventId(less), [x, y])[PropertyOf(owner, first).value] == 1;
    assert Winners(owner, ByEventId(less), [v, w])[PropertyOf(owner, first).value] == 0;
  }

  /** Of two writes that compete, the second holds the property exactly if its event beats the first. */
  lemma WinnerOfTwo(owner: OwnerOf, beats: Beats, x: Write, y: Write)
    requires Competes(owner, x, y)
    ensures Winners(owner, beats, [x, y])
         == map[PropertyOf(owner, x.op).value := if beats(y.event, x.event) then 1 else 0]
  {
    hide PropertyOf;
    assert [x, y][..1] == [x] && [x][..0] == [];
    assert Winners(owner, beats, []) == map[];
    assert Winners(owner, beats, [x]) == map[PropertyOf(owner, x.op).value := 0];
  }

  /** The rewrite of a legacy root and its current child, read back. */
  lemma TwoCommitsCarried(
    read: Reader, reread: Reader, graph: string, writer: string, a: Sha, b: Sha, c: Sha, d: Sha)
    requires read(a).Some? && read(a).value.graph == graph && read(a).value.writer == writer
    requires read(b).Some? && read(b).value.graph == graph && read(b).value.writer == writer
    requires read(a).value.Parent() == None && read(b).value.Parent() == Some(a)
    requires !CurrentAt(read, a) && a != d && a != b
    requires reread(d).Some? && SamePatch(read(a).value, reread(d).value) && reread(d).value.Parent() == None
    requires reread(c).Some? && SamePatch(read(b).value, reread(c).value) && reread(c).value.Parent() == Some(d)
    ensures IsChain(read, graph, writer, [a, b])
    ensures var rewrites, commitMap := [Rewrite(writer, [a, b], [d, c])], map[a := d, b := c];
            AllCarried(read, reread, graph, rewrites) && MapsRewrites(commitMap, rewrites)
  {
    var rewrites := [Rewrite(writer, [a, b], [d, c])];
    assert rewrites[0].olds[0] == a && rewrites[0].olds[1] == b;
  }

  // ----------------------------------------------------------------- frontier

  /** `translateV18CommitShas` */
  function TranslateCommits(shas: seq<Sha>, commitMap: map<Sha, Sha>): (r: Option<seq<Sha>>)
    ensures r.Some? <==> forall s | s in shas :: s in commitMap
    ensures r.Some? ==> |r.value| == |shas| && forall i | 0 <= i < |shas| :: commitMap[shas[i]] == r.value[i]
  {
    if shas == [] then Some([])
    else
      var front := TranslateCommits(shas[..|shas| - 1], commitMap);
      if front.Some? && shas[|shas| - 1] in commitMap then Some(front.value + [commitMap[shas[|shas| - 1]]]) else None
  }

  /** `translateV18CheckpointFrontier` */
  function TranslateFrontier(frontier: map<string, Sha>, commitMap: map<Sha, Sha>): Option<map<string, Sha>> {
    if forall w | w in frontier :: frontier[w] in commitMap then Some(map w | w in frontier :: commitMap[frontier[w]])
    else None
  }

  /** A commit stands at a position of a rewritten chain. */
  predicate StandsAt(shas: seq<Sha>, i: nat, s: Sha) {
    i < |shas| && shas[i] == s
  }

  /**
   A frontier can be translated exactly when each of its commits lies in some rewritten
   chain, and then every translated commit stands in the new chain exactly where the
   original stood in the old one.
   */
  lemma FrontierKeepsItsPositions(
    before: Reader, after: Reader, graph: string, rewrites: seq<Rewrite>, commitMap: map<Sha, Sha>,
    frontier: map<string, Sha>)
    requires AllCarried(before, after, graph, rewrites) && MapsRewrites(commitMap, rewrites)
    ensures TranslateFrontier(frontier, commitMap).Some?
       <==> forall w | w in frontier :: exists r, i: nat :: r in rewrites && StandsAt(r.olds, i, frontier[w])
    ensures TranslateFrontier(frontier, commitMap).Some? ==>
              forall w, r, i: nat | w in frontier && r in rewrites ::
                StandsAt(r.news, i, TranslateFrontier(frontier, commitMap).value[w]) <==> StandsAt(r.olds, i, frontier[w])
  {
    hide AllCarried;
    forall w | w in frontier && frontier[w] in commitMap
      ensures exists r, i: nat :: r in rewrites && StandsAt(r.olds, i, frontier[w])
    {
      var r, i: nat :| r in rewrites && i < |r.olds| && r.olds[i] == frontier[w];
      assert StandsAt(r.olds, i, frontier[w]);
    }
    if TranslateFrontier(frontier, commitMap).Some? {
      forall w, r, i: nat | w in frontier && r in rewrites
        ensures StandsAt(r.news, i, TranslateFrontier(frontier, commitMap).value[w])
           <==> StandsAt(r.olds, i, frontier[w])
      {
        if StandsAt(r.news, i, commitMap[frontier[w]]) {
          CommitMapInjective(before, after, graph, rewrites, commitMap, r.olds[i], frontier[w]);
        }
      }
    }
  }
}
