/**
 The writer loop of V18MigrationScratch.ts: every planned writer's chain is rewritten from the
 head that was fetched, into one commit map, and its ref gets the new head.
 */
module ScratchRewrite {
  import opened Wrappers
  import opened RefStore
  import opened PatchCommits
  import opened WriterChain
  import opened MigrationPlan
  import opened MigrationScratch
  import W = WriterChainRewriter
  import CheckpointSeed

  /** The commits of one planned writer, as the scratch repository lists them. */
  function ChainOf(ancestry: Oid -> seq<Sha>, fetched: Refs, w: WriterPlan): (string, seq<Sha>) {
    (w.writer, if w.refName in fetched then ancestry(fetched[w.refName]) else [])
  }

  function ChainsOf(ancestry: Oid -> seq<Sha>, fetched: Refs, plan: Plan): seq<(string, seq<Sha>)> {
    seq(|plan.writers|, k requires 0 <= k < |plan.writers| => ChainOf(ancestry, fetched, plan.writers[k]))
  }

  ghost predicate DistinctWriters(plan: Plan) {
    forall i, j | 0 <= i < j < |plan.writers| ::
      plan.writers[i].refName != plan.writers[j].refName && plan.writers[i].writer != plan.writers[j].writer
  }

  /** Each writer ref of the plan, and no other, has the last commit of its rewritten chain. */
  ghost predicate HeadsFollow(plan: Plan, rewrites: seq<Rewrite>, heads: Refs) {
    && |rewrites| == |plan.writers|
    && (forall k | 0 <= k < |rewrites| ::
          && |rewrites[k].news| == |rewrites[k].olds| > 0 && plan.writers[k].refName in heads
          && heads[plan.writers[k].refName] == rewrites[k].news[|rewrites[k].news| - 1])
    && forall n | n in heads :: IsWriterRef(plan, n)
  }

  /** What the rewriter needs of the disposable repository it works in. */
  ghost predicate Ready(rewriter: W.Rewriter, ancestry: Oid -> seq<Sha>)
    reads rewriter
  {
    && W.ContentAddressed(rewriter.objects, rewriter.hash) && rewriter.commitMap == map[]
    && W.TranslatesFaithfully(W.ReaderOf(rewriter.objects, rewriter.decode), rewriter.decode, rewriter.translate)
    && forall o, s | s in ancestry(o) :: s in rewriter.objects
  }

  /** All planned chains together can be rewritten in the store as it is. */
  ghost predicate HistoryRewritable(
    rewriter: W.Rewriter, store: Objects, graph: string, ancestry: Oid -> seq<Sha>, fetched: Refs, plan: Plan)
  {
    W.CanRewriteAll(rewriter.TaskOf(graph, "", store), store, ChainsOf(ancestry, fetched, plan))
  }

  /** The error explains why the chain of some planned writer could not be rewritten. */
  ghost predicate BlockedAtAWriter(
    t: W.Task, store: Objects, ancestry: Oid -> seq<Sha>, fetched: Refs, plan: Plan, error: W.RewriteError)
  {
    exists w :: w in plan.writers
                && W.Explains(t.(writer := w.writer), store, ChainOf(ancestry, fetched, w).1, error)
  }

  /** Rewrites all planned writers, or none of them gets a head. */
  method RewriteHeads(
    rewriter: W.Rewriter, graph: string, plan: Plan, ancestry: Oid -> seq<Sha>, fetched: Refs)
    returns (rewrites: Result<seq<Rewrite>, W.RewriteError>, heads: Refs)
    requires Ready(rewriter, ancestry) && DistinctWriters(plan)
    modifies rewriter
    ensures rewrites.Success?
       <==> HistoryRewritable(rewriter, old(rewriter.objects), graph, ancestry, fetched, plan)
    ensures rewrites.Success? ==>
              && W.Follow(rewrites.value, ChainsOf(ancestry, fetched, plan))
              && HistoryCarried(W.ReaderOf(old(rewriter.objects), rewriter.decode),
                                W.ReaderOf(rewriter.objects, rewriter.decode), graph, rewrites.value,
                                rewriter.commitMap)
              && HeadsFollow(plan, rewrites.value, heads)
    ensures rewrites.Failure? ==> heads == map[]
    ensures rewrites.Failure? ==>
              BlockedAtAWriter(rewriter.TaskOf(graph, "", old(rewriter.objects)), rewriter.objects, ancestry, fetched,
                               plan, rewrites.error)
  {
    hide W.CanRewriteAll, W.ReaderOf, AllCarried, MapsRewrites, W.KeepsExactlyTheCurrentPrefixes, W.Explains, Agrees,
         W.ContentAddressed, W.TranslatesFaithfully;
    heads := map[];
    var chains := ChainsOf(ancestry, fetched, plan);
    var done := rewriter.RewriteWriters(graph, chains);
    if done.Failure? {
      assert forall k | 0 <= k < |plan.writers| ::
          chains[k] == (plan.writers[k].writer, ChainOf(ancestry, fetched, plan.writers[k]).1);
      return Failure(done.error), heads;
    }
    heads := NewHeads(plan, done.value);
    rewrites := done;
  }

  /** Each writer's ref gets the last commit of its rewritten chain. */
  method NewHeads(plan: Plan, rewrites: seq<Rewrite>) returns (heads: Refs)
    requires |rewrites| == |plan.writers| && forall r | r in rewrites :: |r.news| == |r.olds| > 0
    requires forall i, j | 0 <= i < j < |plan.writers| :: plan.writers[i].refName != plan.writers[j].refName
    ensures HeadsFollow(plan, rewrites, heads)
  {
    heads := map[];
    for k := 0 to |plan.writers|
      invariant forall j | 0 <= j < k ::
                  && plan.writers[j].refName in heads
                  && heads[plan.writers[j].refName] == rewrites[j].news[|rewrites[j].news| - 1]
      invariant forall n | n in heads :: IsWriterRef(plan, n)
    {
      var r := rewrites[k];
      assert r in rewrites;
      heads := heads[plan.writers[k].refName := r.news[|r.news| - 1]];
    }
    assert forall k | 0 <= k < |rewrites| :: rewrites[k] in rewrites;
  }

  // ------------------------------------------------------------ no lost history

  /** The writer a ref names. */
  function WriterOf(graph: string, name: RefName): string {
    match ParseWriterId(graph, name)
    case None => ""
    case Some(writer) => writer
  }

  /** The chains that stand at these writer refs. */
  function StandingChains(
    graph: string, ancestry: Oid -> seq<Sha>, refs: Refs, names: seq<RefName>): seq<(string, seq<Sha>)>
  {
    seq(|names|, k requires 0 <= k < |names| =>
      (WriterOf(graph, names[k]), if names[k] in refs then ancestry(refs[names[k]]) else []))
  }

  /** Everything a rewrite of all writers promises about the old and the new commits. */
  ghost predicate HistoryCarried(
    before: Reader, after: Reader, graph: string, rewrites: seq<Rewrite>, commitMap: map<Sha, Sha>)
  {
    && Agrees(before, after) && AllCarried(before, after, graph, rewrites) && MapsRewrites(commitMap, rewrites)
    && W.KeepsExactlyTheCurrentPrefixes(before, rewrites)
  }

  /** One writer's ref went from the last commit of its chain to the last of the rewritten one. */
  ghost predicate HeadCarried(
    rewrites: seq<Rewrite>, graph: string, name: RefName, chain: seq<Sha>, head: Oid, now: Option<Oid>)
  {
    exists r :: r in rewrites && CarriesHead(r, WriterOf(graph, name), chain, head, now)
  }

  predicate CarriesHead(r: Rewrite, writer: string, chain: seq<Sha>, head: Oid, now: Option<Oid>) {
    && r.writer == writer && r.olds == chain && |r.news| == |chain| > 0
    && chain[|chain| - 1] == head && now == Some(r.news[|chain| - 1])
  }

  /** Then the ref stands at the end of one complete chain of its writer that carries every old patch. */
  lemma NothingIsLost(
    before: Reader, after: Reader, graph: string, rewrites: seq<Rewrite>, commitMap: map<Sha, Sha>, name: RefName,
    chain: seq<Sha>, head: Oid, now: Option<Oid>)
    requires HistoryCarried(before, after, graph, rewrites, commitMap)
    requires HeadCarried(rewrites, graph, name, chain, head, now)
    ensures now.Some? && head in commitMap && now.value == commitMap[head]
    ensures exists news :: && |news| == |chain| > 0 && news[|news| - 1] == now.value
                           && IsChain(after, graph, WriterOf(graph, name), news) && Carries(before, after, chain, news)
  {
    hide HistoryCarried, IsChain, Carries, WriterOf;
    var r :| r in rewrites && CarriesHead(r, WriterOf(graph, name), chain, head, now);
    OneRewrite(before, after, graph, rewrites, commitMap, r, |chain| - 1);
  }

  lemma OneRewrite(
    before: Reader, after: Reader, graph: string, rewrites: seq<Rewrite>, commitMap: map<Sha, Sha>, r: Rewrite, i: nat)
    requires HistoryCarried(before, after, graph, rewrites, commitMap) && r in rewrites && i < |r.olds|
    ensures IsChain(after, graph, r.writer, r.news) && Carries(before, after, r.olds, r.news)
    ensures |r.news| == |r.olds| && r.olds[i] in commitMap && commitMap[r.olds[i]] == r.news[i]
  {
    hide IsChain, Agrees, W.KeepsExactlyTheCurrentPrefixes;
    CarriedChain(before, after, graph, r.writer, r.olds, r.news);
  }

  /** A frontier of the old heads translates into the frontier of the new ones. */
  lemma FrontierMovesToTheNewHeads(
    before: Reader, after: Reader, graph: string, rewrites: seq<Rewrite>, commitMap: map<Sha, Sha>,
    ancestry: Oid -> seq<Sha>, refs: Refs, promoted: Refs, names: map<string, RefName>)
    requires HistoryCarried(before, after, graph, rewrites, commitMap)
    requires forall w | w in names ::
               names[w] in refs
               && HeadCarried(rewrites, graph, names[w], ancestry(refs[names[w]]), refs[names[w]], At(promoted, names[w]))
    ensures forall w | w in names :: names[w] in promoted
    ensures CheckpointSeed.TranslateFrontier(map w | w in names :: refs[names[w]], commitMap)
         == Some(map w | w in names :: promoted[names[w]])
  {
    hide HistoryCarried, HeadCarried, IsChain, Carries;
    forall w | w in names
      ensures names[w] in promoted && refs[names[w]] in commitMap
      ensures promoted[names[w]] == commitMap[refs[names[w]]]
    {
      var n := names[w];
      NothingIsLost(before, after, graph, rewrites, commitMap, n, ancestry(refs[n]), refs[n], At(promoted, n));
    }
    var frontier := map w | w in names :: refs[names[w]];
    assert CheckpointSeed.TranslateFrontier(frontier, commitMap)
           == Some(map w | w in frontier :: commitMap[frontier[w]]);
    assert (map w | w in frontier :: commitMap[frontier[w]]) == (map w | w in names :: promoted[names[w]]);
  }

  /** A planned ref that still stands where the planner read it gets the head of its own rewritten chain. */
  lemma PlannedHeadIsCarried(
    graph: string, inv: Inventory, passphrase: bool, plan: Plan, ancestry: Oid -> seq<Sha>, fetched: Refs,
    rewrites: seq<Rewrite>, heads: Refs, n: RefName)
    requires Inventoried(graph, inv, passphrase, plan)
    requires n in inv.listing && Classify(graph, n) == WriterRef
    requires n in fetched && At(inv.seen, n) == Some(fetched[n]) && inv.RevList(n) == ancestry(fetched[n])
    requires W.Follow(rewrites, ChainsOf(ancestry, fetched, plan)) && HeadsFollow(plan, rewrites, heads)
    ensures HeadCarried(rewrites, graph, n, ancestry(fetched[n]), fetched[n], At(heads, n))
  {
    hide Classify, Inventoried, HeadsFollow, IsWriterRef;
    WriterRefsSay(graph, inv.listing);
    var refs := WriterRefs(graph, inv.listing);
    var k :| 0 <= k < |refs| && refs[k] == n;
    PlannedWriterAt(graph, inv, passphrase, plan, k);
    HeadFollows(plan, rewrites, heads, k);
    assert ChainsOf(ancestry, fetched, plan)[k] == ChainOf(ancestry, fetched, plan.writers[k]);
    assert rewrites[k] in rewrites;
    assert CarriesHead(rewrites[k], WriterOf(graph, n), ancestry(fetched[n]), fetched[n], At(heads, n));
  }

  lemma PlannedWriterAt(graph: string, inv: Inventory, passphrase: bool, plan: Plan, k: nat)
    requires Inventoried(graph, inv, passphrase, plan) && k < |WriterRefs(graph, inv.listing)|
    ensures |plan.writers| == |WriterRefs(graph, inv.listing)|
    ensures var n := WriterRefs(graph, inv.listing)[k];
            && plan.writers[k].refName == n && plan.writers[k].writer == WriterOf(graph, n)
            && inv.RevList(n) != [] && At(inv.seen, n) == Some(inv.RevList(n)[|inv.RevList(n)| - 1])
  {
    hide WriterRefs, IsChain, LegacyCount, EncryptedCount, ParseWriterId, Files;
    assert Plannable(graph, inv, passphrase, WriterRefs(graph, inv.listing)[k]);
  }

  lemma HeadFollows(plan: Plan, rewrites: seq<Rewrite>, heads: Refs, k: nat)
    requires HeadsFollow(plan, rewrites, heads) && k < |plan.writers|
    ensures |rewrites| == |plan.writers| && |rewrites[k].news| == |rewrites[k].olds| > 0
    ensures At(heads, plan.writers[k].refName) == Some(rewrites[k].news[|rewrites[k].news| - 1])
  {
  }

  /** Exactly the planned writer refs have a head. */
  lemma HeadsForAll(plan: Plan, rewrites: seq<Rewrite>, heads: Refs)
    requires HeadsFollow(plan, rewrites, heads)
    ensures forall n :: IsWriterRef(plan, n) <==> n in heads
  {
  }

  lemma PlansHaveDistinctWriters(graph: string, inv: Inventory, passphrase: bool, plan: Plan)
    requires Inventoried(graph, inv, passphrase, plan)
    requires forall a, b | 0 <= a < b < |inv.listing| :: inv.listing[a] != inv.listing[b]
    ensures DistinctWriters(plan)
  {
    hide Inventoried, Classify, IsChain;
    forall i, j | 0 <= i < j < |plan.writers|
      ensures plan.writers[i].refName != plan.writers[j].refName && plan.writers[i].writer != plan.writers[j].writer
    {
      PlannedWritersAreDistinct(graph, inv, passphrase, plan, i, j);
    }
  }

  /** The planned chains are those that stand at the listed writer refs. */
  lemma PlannedChainsStand(
    graph: string, inv: Inventory, passphrase: bool, plan: Plan, ancestry: Oid -> seq<Sha>, refs: Refs)
    requires Inventoried(graph, inv, passphrase, plan)
    ensures ChainsOf(ancestry, refs, plan) == StandingChains(graph, ancestry, refs, WriterRefs(graph, inv.listing))
    ensures forall n :: IsWriterRef(plan, n) <==> n in WriterRefs(graph, inv.listing)
    ensures plan.writers != []
  {
    hide Classify, ParseWriterId, Files, WriterRefs, Inventoried, WriterOf;
    var names := WriterRefs(graph, inv.listing);
    forall k: nat | k < |names|
      ensures |plan.writers| == |names| && plan.writers[k].refName == names[k]
      ensures plan.writers[k].writer == WriterOf(graph, names[k])
    {
      PlannedWriterAt(graph, inv, passphrase, plan, k);
    }
    SomeWriters(graph, inv, passphrase, plan);
  }

  lemma SomeWriters(graph: string, inv: Inventory, passphrase: bool, plan: Plan)
    requires Inventoried(graph, inv, passphrase, plan)
    ensures plan.writers != [] && |plan.writers| == |WriterRefs(graph, inv.listing)|
  {
  }

  // ------------------------------------------------- what can stop a planned rewrite

  /** The scratch repository reads the commits it fetched as the planner did. */
  ghost predicate ReadsAlike(scratch: Reader, planner: Reader, ancestry: Oid -> seq<Sha>) {
    forall o, s | s in ancestry(o) :: scratch(s) == planner(s)
  }

  /** A translation, a write, or the order of a current commit's headers; not the shape of a chain. */
  predicate OfContent(error: W.RewriteError) {
    error.TranslationFailed? || error.WriteFailed? || error.NotByteIdentical?
  }

  /** The error is of content, and explains why some writer's standing chain could not be rewritten. */
  ghost predicate BlockedByContent(
    t: W.Task, store: Objects, ancestry: Oid -> seq<Sha>, refs: Refs, error: W.RewriteError)
  {
    && OfContent(error)
    && exists n :: n in refs && Below(t.graph, "writers/", n)
                   && W.Explains(t.(writer := WriterOf(t.graph, n)), store, ancestry(refs[n]), error)
  }

  /** The checks of a chain's shape never fire on a chain. */
  lemma ChainsFailOnContentOnly(t: W.Task, store: Objects, shas: seq<Sha>, error: W.RewriteError)
    requires shas != [] && IsChain(t.read, t.graph, t.writer, shas)
    requires W.Explains(t, store, shas, error)
    ensures OfContent(error)
  {
    hide W.Rewrites, W.NewText;
    if error != W.NoCommits {
      var i: nat, news :| && i < |shas| && W.Rewrites(t.read, t.translate, store, shas[..i], news) && |news| == i
                          && W.ExplainsAt(t, store, shas[i], Previous(shas, i), Previous(news, i), error);
      assert Links(t.read, t.graph, t.writer, shas, i);
    }
  }

  /** What the planner accepted is a chain to the rewriter too. */
  lemma PlannedChainHolds(
    graph: string, inv: Inventory, passphrase: bool, plan: Plan, scratch: Reader, ancestry: Oid -> seq<Sha>, k: nat,
    head: Oid)
    requires Inventoried(graph, inv, passphrase, plan) && k < |WriterRefs(graph, inv.listing)|
    requires inv.RevList(WriterRefs(graph, inv.listing)[k]) == ancestry(head)
    requires ReadsAlike(scratch, inv.read, ancestry)
    ensures ancestry(head) != []
    ensures IsChain(scratch, graph, WriterOf(graph, WriterRefs(graph, inv.listing)[k]), ancestry(head))
  {
    hide WriterRefs, LegacyCount, EncryptedCount, ParseWriterId, Files, ReadsAlike;
    var n := WriterRefs(graph, inv.listing)[k];
    assert Plannable(graph, inv, passphrase, n);
    var shas := ancestry(head);
    forall i: nat | i < |shas|
      ensures Links(scratch, graph, WriterOf(graph, n), shas, i)
    {
      assert Links(inv.read, graph, WriterOf(graph, n), shas, i);
      AlikeAt(scratch, inv.read, ancestry, head, i);
    }
  }

  lemma AlikeAt(scratch: Reader, planner: Reader, ancestry: Oid -> seq<Sha>, head: Oid, i: nat)
    requires ReadsAlike(scratch, planner, ancestry) && i < |ancestry(head)|
    ensures scratch(ancestry(head)[i]) == planner(ancestry(head)[i])
  {
    assert ancestry(head)[i] in ancestry(head);
  }

  /** A rewrite of chains the planner saw as they still stand can be stopped by content alone. */
  lemma PlannedRewritesFailOnContentOnly(
    graph: string, inv: Inventory, passphrase: bool, plan: Plan, t: W.Task, store: Objects, ancestry: Oid -> seq<Sha>,
    fetched: Refs, error: W.RewriteError)
    requires Inventoried(graph, inv, passphrase, plan) && t.graph == graph
    requires ReadsAlike(t.read, inv.read, ancestry)
    requires forall n | n in WriterRefs(graph, inv.listing) ::
               && n in fetched && Below(graph, "writers/", n)
               && inv.RevList(n) == ancestry(fetched[n])
    requires BlockedAtAWriter(t, store, ancestry, fetched, plan, error)
    ensures BlockedByContent(t, store, ancestry, fetched, error)
  {
    hide Inventoried, ReadsAlike, IsChain, WriterRefs, W.Explains, Below, OfContent, ParseWriterId;
    var w :| w in plan.writers
             && W.Explains(t.(writer := w.writer), store, ChainOf(ancestry, fetched, w).1, error);
    var k: nat :| k < |plan.writers| && plan.writers[k] == w;
    SomeWriters(graph, inv, passphrase, plan);
    PlannedWriterAt(graph, inv, passphrase, plan, k);
    var n := WriterRefs(graph, inv.listing)[k];
    assert n in WriterRefs(graph, inv.listing);
    PlannedChainHolds(graph, inv, passphrase, plan, t.read, ancestry, k, fetched[n]);
    ChainsFailOnContentOnly(t.(writer := w.writer), store, ancestry(fetched[n]), error);
  }
}
