/**
 Writer chains: what the planner and the rewriter accept as one, and what a rewrite that
 carries each patch over does to its commit names.
 */
module WriterChain {
  import opened Wrappers
  import opened PatchCommits

  /** The patch commit stored under a name, if one can be read there. */
  type Reader = Sha -> Option<PatchCommit>

  /** The parent that position `i` of a chain must name. */
  function Previous(shas: seq<Sha>, i: nat): Option<Sha>
    requires i <= |shas|
  {
    if i == 0 then None else Some(shas[i - 1])
  }

  /** The commit at one position reads, belongs to the writer, and follows its predecessor. */
  predicate Links(read: Reader, graph: string, writer: string, shas: seq<Sha>, i: nat)
    requires i < |shas|
  {
    && read(shas[i]).Some?
    && read(shas[i]).value.graph == graph && read(shas[i]).value.writer == writer
    && read(shas[i]).value.Parent() == Previous(shas, i)
  }

  /** One complete linear chain of one writer, root first. */
  predicate IsChain(read: Reader, graph: string, writer: string, shas: seq<Sha>) {
    forall i: nat | i < |shas| :: Links(read, graph, writer, shas, i)
  }

  /** A chain never meets the same commit twice. */
  lemma {:induction false} ChainDistinct(
    read: Reader, graph: string, writer: string, shas: seq<Sha>, i: nat, j: nat)
    requires IsChain(read, graph, writer, shas)
    requires i < j < |shas|
    ensures shas[i] != shas[j]
  {
    assert Links(read, graph, writer, shas, i) && Links(read, graph, writer, shas, j);
    if i > 0 {
      ChainDistinct(read, graph, writer, shas, i - 1, j - 1);
    }
  }

  lemma ChainPrefix(read: Reader, graph: string, writer: string, shas: seq<Sha>, k: nat)
    requires IsChain(read, graph, writer, shas) && k <= |shas|
    ensures IsChain(read, graph, writer, shas[..k])
  {
    forall i: nat | i < k
      ensures Links(read, graph, writer, shas[..k], i)
    {
      assert Links(read, graph, writer, shas, i);
    }
  }

  /** The head alone determines a writer's chain: every inventory of it finds the same commits. */
  lemma {:induction false} ChainDeterminedByHead(
    read: Reader, graph: string, writer: string, a: seq<Sha>, b: seq<Sha>)
    requires IsChain(read, graph, writer, a) && IsChain(read, graph, writer, b)
    requires a != [] && b != [] && a[|a| - 1] == b[|b| - 1]
    ensures a == b
    decreases |a|
  {
    assert Links(read, graph, writer, a, |a| - 1) && Links(read, graph, writer, b, |b| - 1);
    var c, d := a[..|a| - 1], b[..|b| - 1];
    assert a == c + [a[|a| - 1]] && b == d + [b[|b| - 1]];
    if c != [] && d != [] {
      ChainPrefix(read, graph, writer, a, |a| - 1);
      ChainPrefix(read, graph, writer, b, |b| - 1);
      ChainDeterminedByHead(read, graph, writer, c, d);
    }
  }

  /** A commit belongs to the chain of one writer only. */
  lemma ChainsOfDistinctWritersAreDisjoint(
    read: Reader, graph: string, v: string, w: string, a: seq<Sha>, b: seq<Sha>)
    requires IsChain(read, graph, v, a) && IsChain(read, graph, w, b)
    requires v != w
    ensures forall s | s in a :: s !in b
  {
    forall i: nat, j: nat | i < |a| && j < |b|
      ensures a[i] != b[j]
    {
      assert Links(read, graph, v, a, i) && Links(read, graph, w, b, j);
    }
  }

  /** Another reader of the same chain, over a store that still holds every old commit. */
  ghost predicate Agrees(before: Reader, after: Reader) {
    forall s :: before(s).Some? ==> after(s) == before(s)
  }

  /** The patch a rewritten commit reads back as: the same patch, in current storage. */
  ghost predicate SamePatch(before: PatchCommit, after: PatchCommit) {
    && after.graph == before.graph && after.writer == before.writer
    && after.lamport == before.lamport && after.schema == before.schema
    && after.commit.author == before.commit.author && after.commit.committer == before.commit.committer
    && after.storage.CurrentStorage?
    && after.storage.Encrypted() == before.storage.Encrypted()
    && (before.storage.CurrentStorage? ==>
          && after.storage == before.storage
          && after.commit.message == before.commit.message && after.commit.tree == before.commit.tree)
  }

  /** The byte-identity check: a current commit on an unchanged parent keeps its name. */
  ghost predicate KeepsCurrent(before: Reader, olds: seq<Sha>, news: seq<Sha>, i: nat)
    requires i < |olds| == |news|
  {
    before(olds[i]).Some? && before(olds[i]).value.storage.CurrentStorage? && Previous(news, i) == Previous(olds, i)
    ==> news[i] == olds[i]
  }

  /** Position `i` of the new chain carries the patch at position `i` of the old one. */
  ghost predicate CarriesAt(before: Reader, after: Reader, olds: seq<Sha>, news: seq<Sha>, i: nat)
    requires i < |olds| == |news|
  {
    && before(olds[i]).Some? && after(news[i]).Some?
    && SamePatch(before(olds[i]).value, after(news[i]).value)
    && after(news[i]).value.Parent() == Previous(news, i)
    && KeepsCurrent(before, olds, news, i)
  }

  ghost predicate Carries(before: Reader, after: Reader, olds: seq<Sha>, news: seq<Sha>) {
    |olds| == |news| && forall i: nat | i < |olds| :: CarriesAt(before, after, olds, news, i)
  }

  /** The rewritten commits are again one complete chain of the same writer. */
  lemma CarriedChain(
    before: Reader, after: Reader, graph: string, writer: string, olds: seq<Sha>, news: seq<Sha>)
    requires IsChain(before, graph, writer, olds) && Carries(before, after, olds, news)
    ensures IsChain(after, graph, writer, news)
  {
    forall i: nat | i < |news|
      ensures Links(after, graph, writer, news, i)
    {
      assert Links(before, graph, writer, olds, i) && CarriesAt(before, after, olds, news, i);
    }
  }

  predicate CurrentAt(read: Reader, sha: Sha) {
    read(sha).Some? && read(sha).value.storage.CurrentStorage?
  }

  /** How many commits hold a patch in a retired storage format. */
  function LegacyCount(read: Reader, shas: seq<Sha>): nat {
    if shas == [] then 0
    else LegacyCount(read, shas[..|shas| - 1]) + (if CurrentAt(read, shas[|shas| - 1]) then 0 else 1)
  }

  /** How many of those are encrypted. */
  function EncryptedCount(read: Reader, shas: seq<Sha>): nat {
    if shas == [] then 0
    else
      var last := read(shas[|shas| - 1]);
      EncryptedCount(read, shas[..|shas| - 1])
      + (if last.Some? && !last.value.storage.CurrentStorage? && last.value.storage.Encrypted() then 1 else 0)
  }

  lemma ChainAppend(read: Reader, graph: string, writer: string, shas: seq<Sha>, sha: Sha)
    requires IsChain(read, graph, writer, shas)
    requires read(sha).Some? && read(sha).value.graph == graph && read(sha).value.writer == writer
    requires read(sha).value.Parent() == Previous(shas, |shas|)
    ensures IsChain(read, graph, writer, shas + [sha])
  {
    forall i: nat | i < |shas| + 1
      ensures Links(read, graph, writer, shas + [sha], i)
    {
      if i < |shas| {
        assert Links(read, graph, writer, shas, i);
      }
      assert Previous(shas + [sha], i) == Previous(shas, i);
    }
  }

  /** A rewritten commit keeps its name exactly when nothing up to and including it was legacy. */
  lemma {:induction false} FixesExactlyTheCurrentPrefix(
    before: Reader, after: Reader, graph: string, writer: string, olds: seq<Sha>, news: seq<Sha>, i: nat)
    requires IsChain(before, graph, writer, olds) && Carries(before, after, olds, news)
    requires Agrees(before, after)
    requires i < |olds|
    ensures news[i] == olds[i] <==> forall k | 0 <= k <= i :: CurrentAt(before, olds[k])
  {
    assert Links(before, graph, writer, olds, i) && CarriesAt(before, after, olds, news, i);
    if i > 0 {
      FixesExactlyTheCurrentPrefix(before, after, graph, writer, olds, news, i - 1);
    }
  }

  /** Across all writers: one rewrite per writer, each of its own chain. */
  datatype Rewrite = Rewrite(writer: string, olds: seq<Sha>, news: seq<Sha>)

  ghost predicate AllCarried(before: Reader, after: Reader, graph: string, rewrites: seq<Rewrite>) {
    && (forall a, b | 0 <= a < b < |rewrites| :: rewrites[a].writer != rewrites[b].writer)
    && forall r | r in rewrites ::
         IsChain(before, graph, r.writer, r.olds) && Carries(before, after, r.olds, r.news)
  }

  /** The commit map the rewriter fills: every rewritten commit, and nothing else. */
  ghost predicate MapsRewrites(commitMap: map<Sha, Sha>, rewrites: seq<Rewrite>) {
    && (forall r | r in rewrites :: |r.olds| == |r.news|)
    && (forall r, i: nat | r in rewrites && i < |r.olds| :: r.olds[i] in commitMap && commitMap[r.olds[i]] == r.news[i])
    && (forall s | s in commitMap :: exists r, i: nat :: r in rewrites && i < |r.olds| && r.olds[i] == s)
  }

  /** No two old commits, of one writer or of two, become the same new commit. */
  lemma CommitMapInjective(
    before: Reader, after: Reader, graph: string, rewrites: seq<Rewrite>, commitMap: map<Sha, Sha>, s: Sha, t: Sha)
    requires AllCarried(before, after, graph, rewrites) && MapsRewrites(commitMap, rewrites)
    requires s in commitMap && t in commitMap && commitMap[s] == commitMap[t]
    ensures s == t
  {
    var q, i: nat :| q in rewrites && i < |q.olds| && q.olds[i] == s;
    var r, j: nat :| r in rewrites && j < |r.olds| && r.olds[j] == t;
    CarriedChain(before, after, graph, q.writer, q.olds, q.news);
    CarriedChain(before, after, graph, r.writer, r.olds, r.news);
    assert Links(after, graph, q.writer, q.news, i) && Links(after, graph, r.writer, r.news, j);
    assert q == r;
    if i < j {
      ChainDistinct(after, graph, q.writer, q.news, i, j);
    } else if j < i {
      ChainDistinct(after, graph, q.writer, q.news, j, i);
    }
  }

  /** The new name of a commit's parent is the parent of its new name. */
  lemma CommitMapCommutesWithParent(
    before: Reader, after: Reader, graph: string, rewrites: seq<Rewrite>, commitMap: map<Sha, Sha>, s: Sha)
    requires AllCarried(before, after, graph, rewrites) && MapsRewrites(commitMap, rewrites)
    requires s in commitMap
    ensures before(s).Some? && after(commitMap[s]).Some?
    ensures match before(s).value.Parent()
            case None => after(commitMap[s]).value.Parent() == None
            case Some(p) => p in commitMap && after(commitMap[s]).value.Parent() == Some(commitMap[p])
  {
    var r, i: nat :| r in rewrites && i < |r.olds| && r.olds[i] == s;
    assert Links(before, graph, r.writer, r.olds, i) && CarriesAt(before, after, r.olds, r.news, i);
  }
}
