/**
 V18WriterChainRewriter.ts over a content-addressed commit store: the loop that recreates
 one writer chain commit by commit and records where each commit went.
 */
module WriterChainRewriter {
  import opened Wrappers
  import opened Text
  import opened CommitCodec
  import opened PatchCommits
  import opened WriterChain

  /** Trailers as the message codec decodes them; the codec is a parameter. */
  type Decoder = string -> Trailers

  /** What the patch translator returned for one legacy commit. */
  datatype Translation = Translation(message: string, tree: string)

  type Translator = Sha -> Option<Translation>

  datatype RewriteError =
    | UnreadableCommit(sha: Sha)
    | WrongIdentity(sha: Sha)
    | NotLinear(sha: Sha)
    | TranslationFailed(sha: Sha)
    | WriteFailed(sha: Sha)
    | NotByteIdentical(sha: Sha)
    | NoCommits

  /** Git files every object under the hash of its text. */
  ghost predicate ContentAddressed(objects: Objects, hash: string -> Sha) {
    forall s | s in objects :: hash(objects[s]) == s
  }

  ghost predicate Extends(earlier: Objects, later: Objects) {
    forall s | s in earlier :: s in later && later[s] == earlier[s]
  }

  function ReaderOf(objects: Objects, decode: Decoder): Reader {
    s =>
      match ReadPatchCommit(objects, decode, s)
      case Success(patch) => Some(patch)
      case Failure(_) => None
  }

  /** A current commit keeps its message and tree; a legacy one takes the translator's. */
  function TranslationOf(patch: PatchCommit, sha: Sha, translate: Translator): Option<Translation> {
    if patch.storage.CurrentStorage? then Some(Translation(patch.commit.message, patch.commit.tree)) else translate(sha)
  }

  /** The record written in place of one commit. */
  function NewRecord(patch: PatchCommit, translation: Translation, parent: Option<Sha>): CommitRecord {
    CommitRecord(patch.commit.author, patch.commit.committer, translation.message, parent, translation.tree)
  }

  /** `sha` was replaced by `newSha`, whose text is the record for it on the new parent. */
  ghost predicate Replaces(
    read: Reader, translate: Translator, later: Objects, sha: Sha, newSha: Sha, parent: Option<Sha>)
  {
    && read(sha).Some? && newSha in later
    && TranslationOf(read(sha).value, sha, translate).Some?
    && SerializeCommit(NewRecord(read(sha).value, TranslationOf(read(sha).value, sha, translate).value, parent))
       == Some(later[newSha])
  }

  /** The rewrite of one writer chain, as a relation between the old and the new chain. */
  ghost predicate Rewrites(
    read: Reader, translate: Translator, later: Objects, olds: seq<Sha>, news: seq<Sha>)
  {
    && |olds| == |news|
    && forall i: nat | i < |olds| ::
         && Replaces(read, translate, later, olds[i], news[i], Previous(news, i))
         && KeepsCurrent(read, olds, news, i)
  }

  /** Where the rewrite sent each commit of a chain. */
  function Zip(olds: seq<Sha>, news: seq<Sha>): map<Sha, Sha>
    requires |olds| == |news|
  {
    if olds == [] then map[]
    else Zip(olds[..|olds| - 1], news[..|news| - 1])[olds[|olds| - 1] := news[|news| - 1]]
  }

  /**
   What the translator promises about its messages: they read back as the same patch, in
   current storage. PatchCommits.MigratedMessageReadsBack is the codec's half of it.
   */
  ghost predicate TranslatesFaithfully(read: Reader, decode: Decoder, translate: Translator) {
    forall s | read(s).Some? && !CurrentAt(read, s) && translate(s).Some? ::
      exists handle ::
        decode(translate(s).value.message)
        == CurrentTrailers(read(s).value.graph, read(s).value.writer, read(s).value.lamport, read(s).value.schema,
                           handle, read(s).value.storage.Encrypted())
  }

  /** What a readable commit's patch satisfies. */
  lemma ReadPatch(objects: Objects, decode: Decoder, sha: Sha)
    requires ReaderOf(objects, decode)(sha).Some?
    ensures var patch := ReaderOf(objects, decode)(sha).value;
            && sha in objects
            && ParseCommit(sha, objects[sha]) == Success(patch.commit)
            && ParsePatchMessage(patch.commit, decode(patch.commit.message)) == Success(patch)
  {
    var patch := ReaderOf(objects, decode)(sha).value;
    ParsedPatch(ParseCommit(sha, objects[sha]).value, decode(ParseCommit(sha, objects[sha]).value.message));
  }

  lemma SameMessageSamePatch(a: GitCommit, b: GitCommit, trailers: Trailers)
    requires ParsePatchMessage(a, trailers).Success?
    ensures ParsePatchMessage(b, trailers) == Success(ParsePatchMessage(a, trailers).value.(commit := b))
  {
  }

  /** A rewritten commit reads back as the same patch on the new parent. */
  lemma ReplacementReads(
    objects: Objects, later: Objects, decode: Decoder, translate: Translator, sha: Sha, newSha: Sha,
    parent: Option<Sha>)
    requires var read := ReaderOf(objects, decode);
             Replaces(read, translate, later, sha, newSha, parent) && TranslatesFaithfully(read, decode, translate)
    ensures var read, reread := ReaderOf(objects, decode), ReaderOf(later, decode);
            && reread(newSha).Some?
            && SamePatch(read(sha).value, reread(newSha).value)
            && reread(newSha).value.Parent() == parent
            && (!CurrentAt(read, sha) ==>
                  && translate(sha).Some?
                  && reread(newSha).value.commit.message == translate(sha).value.message
                  && reread(newSha).value.commit.tree == translate(sha).value.tree)
  {
    var read := ReaderOf(objects, decode);
    var patch := read(sha).value;
    ReadPatch(objects, decode, sha);
    ParsedText(sha, objects[sha]);
    ParsedPatch(patch.commit, decode(patch.commit.message));
    var translation := TranslationOf(patch, sha, translate).value;
    var record := NewRecord(patch, translation, parent);
    ParseSerialized(newSha, record);
    var commit := CommitOf(newSha, record);
    if CurrentAt(read, sha) {
      SameMessageSamePatch(patch.commit, commit, decode(patch.commit.message));
    } else {
      var handle :| decode(translation.message)
                    == CurrentTrailers(patch.graph, patch.writer, patch.lamport, patch.schema, handle,
                                       patch.storage.Encrypted());
      MigratedMessageReadsBack(commit, patch.graph, patch.writer, patch.lamport, patch.schema, handle,
                               patch.storage.Encrypted());
    }
  }

  /** A rewrite carries every patch of the chain to its new commit. */
  lemma RewriteCarries(
    objects: Objects, later: Objects, decode: Decoder, translate: Translator, olds: seq<Sha>, news: seq<Sha>)
    requires Rewrites(ReaderOf(objects, decode), translate, later, olds, news)
    requires TranslatesFaithfully(ReaderOf(objects, decode), decode, translate)
    ensures Carries(ReaderOf(objects, decode), ReaderOf(later, decode), olds, news)
  {
    var read, reread := ReaderOf(objects, decode), ReaderOf(later, decode);
    forall i: nat | i < |olds|
      ensures CarriesAt(read, reread, olds, news, i)
    {
      ReplacementReads(objects, later, decode, translate, olds[i], news[i], Previous(news, i));
    }
  }

  /** Reading does not depend on objects added later. */
  lemma ReadersAgree(earlier: Objects, later: Objects, decode: Decoder)
    requires Extends(earlier, later)
    ensures Agrees(ReaderOf(earlier, decode), ReaderOf(later, decode))
  {
  }

  /** A current commit with headers in Git's order, written again on its own parent, keeps its name. */
  lemma RecreatedByteIdentically(
    objects: Objects, decode: Decoder, hash: string -> Sha, sha: Sha, text: string)
    requires ContentAddressed(objects, hash)
    requires ReaderOf(objects, decode)(sha).Some?
    requires var patch := ReaderOf(objects, decode)(sha).value;
             SerializeCommit(NewRecord(patch, Translation(patch.commit.message, patch.commit.tree), patch.Parent()))
             == Some(text)
    ensures HasFields(objects[sha])
    ensures text == objects[sha] <==> CanonicalOrder(HeaderOrder(objects[sha]))
    ensures text == objects[sha] ==> hash(text) == sha
  {
    ReadPatch(objects, decode, sha);
    ParsedText(sha, objects[sha]);
    SerializeParsed(sha, objects[sha]);
  }

  lemma ReadersAgreeOn(origin: Objects, later: Objects, decode: Decoder, sha: Sha)
    requires Extends(origin, later) && sha in origin
    ensures ReaderOf(later, decode)(sha) == ReaderOf(origin, decode)(sha)
  {
  }

  /** A store that has grown still holds every replacement made so far. */
  lemma RewritesPersist(
    read: Reader, translate: Translator, later: Objects, latest: Objects, olds: seq<Sha>, news: seq<Sha>)
    requires Rewrites(read, translate, later, olds, news) && Extends(later, latest)
    ensures Rewrites(read, translate, latest, olds, news)
  {
    forall i: nat | i < |olds|
      ensures Replaces(read, translate, latest, olds[i], news[i], Previous(news, i))
      ensures KeepsCurrent(read, olds, news, i)
    {
      assert Replaces(read, translate, later, olds[i], news[i], Previous(news, i));
    }
  }

  lemma RewritesAppend(
    read: Reader, translate: Translator, later: Objects, olds: seq<Sha>, news: seq<Sha>, sha: Sha, newSha: Sha)
    requires Rewrites(read, translate, later, olds, news)
    requires Replaces(read, translate, later, sha, newSha, Previous(news, |news|))
    requires KeepsCurrent(read, olds + [sha], news + [newSha], |olds|)
    ensures Rewrites(read, translate, later, olds + [sha], news + [newSha])
  {
    hide SerializeCommit, Replaces;
    var os, ns := olds + [sha], news + [newSha];
    forall i: nat | i < |os|
      ensures Replaces(read, translate, later, os[i], ns[i], Previous(ns, i))
      ensures KeepsCurrent(read, os, ns, i)
    {
      if i < |olds| {
        assert Replaces(read, translate, later, olds[i], news[i], Previous(news, i));
        assert KeepsCurrent(read, olds, news, i);
        assert Previous(ns, i) == Previous(news, i) && Previous(os, i) == Previous(olds, i);
      } else {
        assert Previous(ns, i) == Previous(news, |news|);
      }
    }
  }

  lemma ZipAppend(start: map<Sha, Sha>, olds: seq<Sha>, news: seq<Sha>, sha: Sha, newSha: Sha)
    requires |olds| == |news|
    ensures start + Zip(olds + [sha], news + [newSha]) == (start + Zip(olds, news))[sha := newSha]
  {
    assert (olds + [sha])[..|olds|] == olds && (news + [newSha])[..|news|] == news;
  }

  /** The first `i` commits are a chain and have been rewritten to `news`. */
  ghost predicate RewroteUpTo(
    read: Reader, translate: Translator, graph: string, writer: string, later: Objects, commits: seq<Sha>, i: nat,
    news: seq<Sha>)
  {
    && |news| == i <= |commits|
    && IsChain(read, graph, writer, commits[..i])
    && Rewrites(read, translate, later, commits[..i], news)
  }

  lemma RewroteNone(
    read: Reader, translate: Translator, graph: string, writer: string, later: Objects, commits: seq<Sha>)
    ensures RewroteUpTo(read, translate, graph, writer, later, commits, 0, [])
  {
  }

  lemma RewroteOneMore(
    read: Reader, translate: Translator, graph: string, writer: string, later: Objects, latest: Objects,
    commits: seq<Sha>, i: nat, news: seq<Sha>, newSha: Sha)
    requires RewroteUpTo(read, translate, graph, writer, later, commits, i, news)
    requires i < |commits| && Extends(later, latest)
    requires read(commits[i]).Some? && read(commits[i]).value.graph == graph && read(commits[i]).value.writer == writer
    requires read(commits[i]).value.Parent() == Previous(commits, i)
    requires Replaces(read, translate, latest, commits[i], newSha, Previous(news, i))
    requires CurrentAt(read, commits[i]) && Previous(news, i) == Previous(commits, i) ==> newSha == commits[i]
    ensures RewroteUpTo(read, translate, graph, writer, latest, commits, i + 1, news + [newSha])
  {
    hide SerializeCommit;
    assert commits[..i + 1] == commits[..i] + [commits[i]];
    assert Previous(commits[..i], i) == Previous(commits, i);
    RewritesPersist(read, translate, later, latest, commits[..i], news);
    ChainAppend(read, graph, writer, commits[..i], commits[i]);
    RewritesAppend(read, translate, latest, commits[..i], news, commits[i], newSha);
  }

  // ------------------------------------------------------ failure and success

  /** What one chain's rewrite works from. */
  datatype Task = Task(
    read: Reader, translate: Translator, hash: string -> Sha, origin: Objects, graph: string, writer: string)

  /** The text a commit gets on a new parent, if it is translated and printable. */
  function NewText(t: Task, sha: Sha, previousNew: Option<Sha>): Option<string>
    requires t.read(sha).Some?
  {
    match TranslationOf(t.read(sha).value, sha, t.translate)
    case None => None
    case Some(translation) => SerializeCommit(NewRecord(t.read(sha).value, translation, previousNew))
  }

  /** A store refuses a text: its hash is no object id, or names another text already. */
  predicate Refuses(hash: string -> Sha, objects: Objects, text: string) {
    !IsOid(hash(text)) || (hash(text) in objects && objects[hash(text)] != text)
  }

  /** Exactly what was wrong with the one commit that could not be rewritten. */
  ghost predicate ExplainsAt(
    t: Task, objects: Objects, sha: Sha, previousOld: Option<Sha>, previousNew: Option<Sha>, error: RewriteError)
  {
    match error
    case UnreadableCommit(s) => s == sha && t.read(sha).None?
    case WrongIdentity(s) =>
      s == sha && t.read(s).Some? && (t.read(s).value.graph != t.graph || t.read(s).value.writer != t.writer)
    case NotLinear(s) => s == sha && t.read(s).Some? && t.read(s).value.Parent() != previousOld
    case TranslationFailed(s) => s == sha && t.read(s).Some? && TranslationOf(t.read(s).value, s, t.translate).None?
    case WriteFailed(s) =>
      && s == sha && t.read(s).Some?
      && (NewText(t, s, previousNew).Some? ==> Refuses(t.hash, objects, NewText(t, s, previousNew).value))
    case NotByteIdentical(s) =>
      && s == sha && CurrentAt(t.read, s) && previousNew == previousOld
      && NewText(t, s, previousNew).Some? && t.hash(NewText(t, s, previousNew).value) != s
      && s in t.origin && HasFields(t.origin[s]) && !CanonicalOrder(HeaderOrder(t.origin[s]))
    case NoCommits => false
  }

  /** Why a rewrite stopped: at a commit whose predecessors were all rewritten. */
  ghost predicate Explains(t: Task, objects: Objects, shas: seq<Sha>, error: RewriteError) {
    if error == NoCommits then shas == []
    else exists i: nat, news ::
      && i < |shas| && Rewrites(t.read, t.translate, objects, shas[..i], news) && |news| == i
      && ExplainsAt(t, objects, shas[i], Previous(shas, i), Previous(news, i), error)
  }

  lemma Explained(t: Task, objects: Objects, shas: seq<Sha>, i: nat, news: seq<Sha>, error: RewriteError)
    requires i < |shas| && |news| == i && Rewrites(t.read, t.translate, objects, shas[..i], news)
    requires ExplainsAt(t, objects, shas[i], Previous(shas, i), Previous(news, i), error)
    ensures Explains(t, objects, shas, error)
  {
    hide Rewrites;
  }

  lemma ExplainedEmpty(t: Task, objects: Objects)
    ensures Explains(t, objects, [], NoCommits)
  {
  }

  predicate AllOids(news: seq<Sha>) {
    forall n | n in news :: IsOid(n)
  }

  /** In this store the whole chain is already rewritten. */
  ghost predicate RewrittenIn(t: Task, later: Objects, shas: seq<Sha>) {
    && shas != [] && IsChain(t.read, t.graph, t.writer, shas)
    && exists news :: Rewrites(t.read, t.translate, later, shas, news) && AllOids(news)
  }

  /** Some growth of the store holds the whole rewritten chain. */
  ghost predicate CanRewrite(t: Task, store: Objects, shas: seq<Sha>) {
    exists later :: Extends(store, later) && ContentAddressed(later, t.hash) && RewrittenIn(t, later, shas)
  }

  lemma RewritesPrefix(
    read: Reader, translate: Translator, later: Objects, olds: seq<Sha>, news: seq<Sha>, n: nat)
    requires Rewrites(read, translate, later, olds, news) && n <= |olds|
    ensures Rewrites(read, translate, later, olds[..n], news[..n])
  {
    hide SerializeCommit;
    forall i: nat | i < n
      ensures Replaces(read, translate, later, olds[..n][i], news[..n][i], Previous(news[..n], i))
      ensures KeepsCurrent(read, olds[..n], news[..n], i)
    {
      assert Replaces(read, translate, later, olds[i], news[i], Previous(news, i));
      assert KeepsCurrent(read, olds, news, i);
      assert Previous(news[..n], i) == Previous(news, i) && Previous(olds[..n], i) == Previous(olds, i);
    }
  }

  lemma ReplacesUnique(
    read: Reader, translate: Translator, hash: string -> Sha, a: Objects, b: Objects, sha: Sha, m: Sha, n: Sha,
    parent: Option<Sha>)
    requires ContentAddressed(a, hash) && ContentAddressed(b, hash)
    requires Replaces(read, translate, a, sha, m, parent) && Replaces(read, translate, b, sha, n, parent)
    ensures m == n && m in a && m in b && a[m] == b[m]
  {
    hide SerializeCommit;
  }

  lemma RewriteAt(read: Reader, translate: Translator, later: Objects, olds: seq<Sha>, news: seq<Sha>, i: nat)
    requires Rewrites(read, translate, later, olds, news) && i < |olds|
    ensures |news| == |olds| && Replaces(read, translate, later, olds[i], news[i], Previous(news, i))
    ensures KeepsCurrent(read, olds, news, i)
  {
  }

  /** The old chain determines the new one and its texts, whatever else a store holds. */
  lemma {:induction false} RewritesUnique(
    read: Reader, translate: Translator, hash: string -> Sha, a: Objects, b: Objects, olds: seq<Sha>, m: seq<Sha>,
    n: seq<Sha>)
    requires ContentAddressed(a, hash) && ContentAddressed(b, hash)
    requires Rewrites(read, translate, a, olds, m) && Rewrites(read, translate, b, olds, n)
    ensures m == n
    ensures forall s | s in m :: s in a && s in b && a[s] == b[s]
  {
    hide Rewrites, Replaces, KeepsCurrent, ContentAddressed;
    RewritesLength(read, translate, a, olds, m);
    RewritesLength(read, translate, b, olds, n);
    if olds != [] {
      var k := |olds| - 1;
      RewritesPrefix(read, translate, a, olds, m, k);
      RewritesPrefix(read, translate, b, olds, n, k);
      RewritesUnique(read, translate, hash, a, b, olds[..k], m[..k], n[..k]);
      RewriteAt(read, translate, a, olds, m, k);
      RewriteAt(read, translate, b, olds, n, k);
      assert k > 0 ==> m[..k][k - 1] == n[..k][k - 1];
      ReplacesUnique(read, translate, hash, a, b, olds[k], m[k], n[k], Previous(m, k));
      assert m == m[..k] + [m[k]] && n == n[..k] + [n[k]];
    }
  }

  lemma RewritesLength(read: Reader, translate: Translator, later: Objects, olds: seq<Sha>, news: seq<Sha>)
    requires Rewrites(read, translate, later, olds, news)
    ensures |news| == |olds|
  {
  }

  /** A chain that has been rewritten could be; an empty one never can. */
  lemma ChainRewritten(t: Task, store: Objects, objects: Objects, shas: seq<Sha>, news: seq<Sha>)
    requires Extends(store, objects) && ContentAddressed(objects, t.hash)
    requires IsChain(t.read, t.graph, t.writer, shas) && Rewrites(t.read, t.translate, objects, shas, news)
    requires AllOids(news)
    ensures CanRewrite(t, store, shas) <==> shas != []
  {
    hide SerializeCommit, IsOid, IsChain, Rewrites;
    if shas != [] {
      assert RewrittenIn(t, objects, shas);
    }
  }

  /** A store with nothing beyond what a rewrite put there fits in any store that holds the rewrite. */
  lemma GrowthFits(store: Objects, objects: Objects, news: seq<Sha>, later: Objects)
    requires Extends(store, objects) && Extends(store, later)
    requires forall s | s in objects :: s in store || s in news
    requires forall s | s in news :: s in objects && s in later && objects[s] == later[s]
    ensures Extends(objects, later)
  {
  }

  /** A chain rewritten in a larger store continues any prefix of its rewrite the same way. */
  lemma ContinuesAlike(t: Task, objects: Objects, later: Objects, shas: seq<Sha>, i: nat, news: seq<Sha>)
    requires ContentAddressed(objects, t.hash) && ContentAddressed(later, t.hash)
    requires i < |shas| && |news| == i && Rewrites(t.read, t.translate, objects, shas[..i], news)
    requires RewrittenIn(t, later, shas)
    ensures forall s | s in news :: s in objects && s in later && objects[s] == later[s]
    ensures t.read(shas[i]).Some? && t.read(shas[i]).value.graph == t.graph && t.read(shas[i]).value.writer == t.writer
    ensures t.read(shas[i]).value.Parent() == Previous(shas, i)
    ensures TranslationOf(t.read(shas[i]).value, shas[i], t.translate).Some?
    ensures var text := NewText(t, shas[i], Previous(news, i));
            && text.Some? && IsOid(t.hash(text.value))
            && t.hash(text.value) in later && later[t.hash(text.value)] == text.value
            && (CurrentAt(t.read, shas[i]) && Previous(news, i) == Previous(shas, i) ==> t.hash(text.value) == shas[i])
  {
    hide SerializeCommit, IsOid;
    var other :| Rewrites(t.read, t.translate, later, shas, other) && AllOids(other);
    RewritesPrefix(t.read, t.translate, later, shas, other, i);
    RewritesUnique(t.read, t.translate, t.hash, objects, later, shas[..i], news, other[..i]);
    assert Previous(other, i) == Previous(news, i) by {
      assert i > 0 ==> other[..i][i - 1] == other[i - 1];
    }
    assert Links(t.read, t.graph, t.writer, shas, i);
    assert Replaces(t.read, t.translate, later, shas[i], other[i], Previous(other, i));
    assert KeepsCurrent(t.read, shas, other, i);
    assert other[i] in other;
  }

  /** What is wrong with a commit is wrong in every growth of the store. */
  lemma FailureIsFinal(
    t: Task, store: Objects, objects: Objects, shas: seq<Sha>, i: nat, news: seq<Sha>, error: RewriteError,
    later: Objects)
    requires Extends(store, objects) && ContentAddressed(objects, t.hash)
    requires i < |shas| && |news| == i && Rewrites(t.read, t.translate, objects, shas[..i], news)
    requires error.WriteFailed? ==> forall s | s in objects :: s in store || s in news
    requires ExplainsAt(t, objects, shas[i], Previous(shas, i), Previous(news, i), error)
    requires Extends(store, later) && ContentAddressed(later, t.hash)
    ensures !RewrittenIn(t, later, shas)
  {
    hide SerializeCommit, IsOid, HasFields, HeaderOrder, CanonicalOrder, Rewrites, NewText, RewrittenIn;
    if RewrittenIn(t, later, shas) {
      ContinuesAlike(t, objects, later, shas, i, news);
      if error.WriteFailed? {
        GrowthFits(store, objects, news, later);
      }
      assert false;
    }
  }

  lemma LegacyNone(read: Reader)
    ensures LegacyCount(read, []) == 0
  {
  }

  lemma LegacyOneMore(read: Reader, shas: seq<Sha>, i: nat)
    requires i < |shas|
    ensures LegacyCount(read, shas[..i + 1]) == LegacyCount(read, shas[..i]) + if CurrentAt(read, shas[i]) then 0 else 1
  {
    assert shas[..i + 1][..i] == shas[..i];
  }

  /** The rewriter of one scratch repository: its object store and the commit map it fills. */
  class Rewriter {
    const hash: string -> Sha
    const decode: Decoder
    const translate: Translator
    var objects: Objects
    var commitMap: map<Sha, Sha>

    constructor (objects: Objects, hash: string -> Sha, decode: Decoder, translate: Translator)
      ensures this.objects == objects && commitMap == map[]
      ensures this.hash == hash && this.decode == decode && this.translate == translate
    {
      this.objects, commitMap := objects, map[];
      this.hash, this.decode, this.translate := hash, decode, translate;
    }

    ghost function TaskOf(graph: string, writer: string, origin: Objects): Task {
      Task(ReaderOf(origin, decode), translate, hash, origin, graph, writer)
    }

    /** Writes one commit object; a refused record, a bad object name or a hash collision fails. */
    method WriteCommit(record: CommitRecord) returns (sha: Option<Sha>)
      requires ContentAddressed(objects, hash)
      modifies this`objects
      ensures ContentAddressed(objects, hash) && Extends(old(objects), objects)
      ensures sha.Some? <==>
                && SerializeCommit(record).Some?
                && var text := SerializeCommit(record).value;
                   IsOid(hash(text)) && (hash(text) in old(objects) ==> old(objects)[hash(text)] == text)
      ensures sha.Some? ==> SerializeCommit(record).Some? && sha.value == hash(SerializeCommit(record).value)
                            && objects == old(objects)[sha.value := SerializeCommit(record).value]
      ensures sha.None? ==> objects == old(objects)
    {
      var text := SerializeCommit(record);
      if text.None? {
        return None;
      }
      var name := hash(text.value);
      if !IsOid(name) || (name in objects && objects[name] != text.value) {
        return None;
      }
      objects := objects[name := text.value];
      sha := Some(name);
    }

    /** One turn of the rewrite loop. */
    method RewriteCommit(
      graph: string, writer: string, sha: Sha, previousOld: Option<Sha>, previousNew: Option<Sha>,
      ghost origin: Objects)
      returns (r: Result<Sha, RewriteError>)
      requires ContentAddressed(objects, hash) && ContentAddressed(origin, hash)
      requires Extends(origin, objects) && sha in origin
      modifies this`objects
      ensures ContentAddressed(objects, hash) && Extends(old(objects), objects)
      ensures var read := ReaderOf(origin, decode);
              r.Success? ==>
                && read(sha).Some? && read(sha).value.graph == graph && read(sha).value.writer == writer
                && read(sha).value.Parent() == previousOld
                && Replaces(read, translate, objects, sha, r.value, previousNew)
                && (CurrentAt(read, sha) && previousNew == previousOld ==> r.value == sha)
                && IsOid(r.value) && forall s | s in objects :: s in old(objects) || s == r.value
      ensures r.Failure? ==> ExplainsAt(TaskOf(graph, writer, origin), objects, sha, previousOld, previousNew, r.error)
      ensures r.Failure? && r.error.WriteFailed? ==> objects == old(objects)
    {
      hide HasFields, HeaderOrder, CanonicalOrder, ReadPatchCommit;
      ReadersAgreeOn(origin, objects, decode, sha);
      var found := ReaderOf(objects, decode)(sha);
      if found.None? {
        return Failure(UnreadableCommit(sha));
      }
      var patch := found.value;
      if patch.graph != graph || patch.writer != writer {
        return Failure(WrongIdentity(sha));
      }
      if patch.Parent() != previousOld {
        return Failure(NotLinear(sha));
      }
      var translation := TranslationOf(patch, sha, translate);
      if translation.None? {
        return Failure(TranslationFailed(sha));
      }
      var written := WriteCommit(NewRecord(patch, translation.value, previousNew));
      if written.None? {
        return Failure(WriteFailed(sha));
      }
      var newSha := written.value;
      if patch.storage.CurrentStorage? && previousNew == previousOld {
        RecreatedByteIdentically(origin, decode, hash, sha, objects[newSha]);
        if newSha != sha {
          return Failure(NotByteIdentical(sha));
        }
      }
      r := Success(newSha);
    }

    /** Recreates one writer chain in order and records where each commit went. */
    method RewriteChain(graph: string, writer: string, commits: seq<Sha>, ghost origin: Objects)
      returns (r: Result<Rewrite, RewriteError>, translatedCount: nat)
      requires ContentAddressed(objects, hash) && ContentAddressed(origin, hash)
      requires Extends(origin, objects) && forall s | s in commits :: s in origin
      modifies this
      ensures ContentAddressed(objects, hash) && Extends(old(objects), objects)
      ensures r.Success? ==>
                var read := ReaderOf(origin, decode);
                && commits != []
                && r.value.writer == writer && r.value.olds == commits && |r.value.news| == |commits|
                && IsChain(read, graph, writer, commits)
                && Rewrites(read, translate, objects, commits, r.value.news)
                && commitMap == old(commitMap) + Zip(commits, r.value.news)
                && translatedCount == LegacyCount(read, commits)
                && AllOids(r.value.news) && forall s | s in objects :: s in old(objects) || s in r.value.news
      ensures r.Success? <==> CanRewrite(TaskOf(graph, writer, origin), old(objects), commits)
      ensures r.Failure? ==> Explains(TaskOf(graph, writer, origin), objects, commits, r.error)
    {
      hide SerializeCommit, ReadPatchCommit, ReaderOf, HasFields, HeaderOrder, CanonicalOrder, IsChain, Rewrites,
           LegacyCount, ExplainsAt, RewrittenIn, IsOid, Explains;
      ghost var read := ReaderOf(origin, decode);
      ghost var task := TaskOf(graph, writer, origin);
      var news: seq<Sha> := [];
      var previousOld: Option<Sha> := None;
      var previousNew: Option<Sha> := None;
      translatedCount := 0;
      RewroteNone(read, translate, graph, writer, objects, commits);
      assert commits[..0] == [];
      LegacyNone(read);
      for i := 0 to |commits|
        invariant ContentAddressed(objects, hash) && Extends(old(objects), objects)
        invariant RewroteUpTo(read, translate, graph, writer, objects, commits, i, news)
        invariant previousOld == Previous(commits, i) && previousNew == Previous(news, i)
        invariant commitMap == old(commitMap) + Zip(commits[..i], news)
        invariant translatedCount == LegacyCount(read, commits[..i])
        invariant AllOids(news) && forall s | s in objects :: s in old(objects) || s in news
      {
        var sha := commits[i];
        assert commits[..i + 1] == commits[..i] + [sha];
        ghost var before := objects;
        var newSha := RewriteCommit(graph, writer, sha, previousOld, previousNew, origin);
        if newSha.Failure? {
          RewritesPersist(read, translate, before, objects, commits[..i], news);
          forall later | Extends(old(objects), later) && ContentAddressed(later, hash)
            ensures !RewrittenIn(task, later, commits)
          {
            FailureIsFinal(task, old(objects), objects, commits, i, news, newSha.error, later);
          }
          Explained(task, objects, commits, i, news, newSha.error);
          return Failure(newSha.error), translatedCount;
        }
        LegacyOneMore(read, commits, i);
        RewroteOneMore(read, translate, graph, writer, before, objects, commits, i, news, newSha.value);
        ZipAppend(old(commitMap), commits[..i], news, sha, newSha.value);
        ReadersAgreeOn(origin, objects, decode, sha);
        if !CurrentAt(ReaderOf(objects, decode), sha) {
          translatedCount := translatedCount + 1;
        }
        news := news + [newSha.value];
        previousOld, previousNew := Some(sha), Some(newSha.value);
        commitMap := commitMap[sha := newSha.value];
      }
      assert commits[..|commits|] == commits;
      ChainRewritten(task, old(objects), objects, commits, news);
      if previousNew.None? {
        ExplainedEmpty(task, objects);
        return Failure(NoCommits), translatedCount;
      }
      r := Success(Rewrite(writer, commits, news));
    }

    /** Rewrites every planned writer in turn into the same store and commit map. */
    method RewriteWriters(graph: string, chains: seq<(string, seq<Sha>)>)
      returns (r: Result<seq<Rewrite>, RewriteError>)
      requires ContentAddressed(objects, hash) && commitMap == map[]
      requires forall c, s | c in chains && s in c.1 :: s in objects
      requires forall a, b | 0 <= a < b < |chains| :: chains[a].0 != chains[b].0
      requires TranslatesFaithfully(ReaderOf(objects, decode), decode, translate)
      modifies this
      ensures ContentAddressed(objects, hash) && Extends(old(objects), objects)
      ensures r.Success? <==> CanRewriteAll(TaskOf(graph, "", old(objects)), old(objects), chains)
      ensures r.Success? ==>
                var before, after := ReaderOf(old(objects), decode), ReaderOf(objects, decode);
                && Follow(r.value, chains) && Agrees(before, after)
                && AllCarried(before, after, graph, r.value) && MapsRewrites(commitMap, r.value)
                && (forall w | w in r.value :: w.olds != [] && |w.news| == |w.olds|)
                && KeepsExactlyTheCurrentPrefixes(before, r.value)
                && TranslatedInto(before, after, translate, r.value)
      ensures r.Failure? ==>
                exists k :: 0 <= k < |chains|
                            && Explains(TaskOf(graph, chains[k].0, old(objects)), objects, chains[k].1, r.error)
    {
      hide SerializeCommit, ReadPatchCommit, ReaderOf, IsChain, Carries, Rewrites, MapsRewrites, Explains, CanRewrite,
           CanRewriteAll, RewrittenIn, AllOids, KeepsExactlyTheCurrentPrefixes, TranslatedInto;
      ghost var origin := objects;
      ghost var read := ReaderOf(origin, decode);
      ghost var task := TaskOf(graph, "", origin);
      var rewrites: seq<Rewrite> := [];
      MapsNone();
      for k := 0 to |chains|
        invariant ContentAddressed(objects, hash) && Extends(origin, objects)
        invariant Follow(rewrites, chains[..k])
        invariant forall w | w in rewrites :: RewroteWhole(task, objects, w)
        invariant forall s | s in objects :: s in origin || WrittenBy(rewrites, s)
        invariant MapsRewrites(commitMap, rewrites)
      {
        ghost var before, mapped := objects, commitMap;
        assert chains[k] in chains;
        var done, _ := RewriteChain(graph, chains[k].0, chains[k].1, origin);
        if done.Failure? {
          ChainBlocksAll(task, origin, before, chains, rewrites, k);
          return Failure(done.error);
        }
        StillWhole(task, before, objects, rewrites);
        forall w | w in rewrites
          ensures w.writer != done.value.writer
        {
          var j :| 0 <= j < |rewrites| && rewrites[j] == w;
          assert chains[j].0 == chains[..k][j].0;
        }
        MapsOneMore(read, graph, rewrites, done.value, mapped);
        FollowAppend(rewrites, chains[..k], done.value, chains[k]);
        assert chains[..k + 1] == chains[..k] + [chains[k]];
        WrittenByMore(rewrites, done.value);
        rewrites := rewrites + [done.value];
      }
      assert chains[..|chains|] == chains;
      AllRewritten(task, origin, objects, chains, rewrites);
      WholeRewritesCarry(task, origin, objects, decode, rewrites);
      r := Success(rewrites);
    }
  }

  /** Some growth of the store holds all the rewritten chains. */
  ghost predicate CanRewriteAll(t: Task, store: Objects, chains: seq<(string, seq<Sha>)>) {
    exists later ::
      && Extends(store, later) && ContentAddressed(later, t.hash)
      && forall c | c in chains :: RewrittenIn(t.(writer := c.0), later, c.1)
  }

  /** One writer's chain stands rewritten in the store. */
  ghost predicate RewroteWhole(t: Task, objects: Objects, w: Rewrite) {
    && w.olds != [] && |w.news| == |w.olds| && AllOids(w.news)
    && IsChain(t.read, t.graph, w.writer, w.olds) && Rewrites(t.read, t.translate, objects, w.olds, w.news)
  }

  ghost predicate WrittenBy(rewrites: seq<Rewrite>, s: Sha) {
    exists w :: w in rewrites && s in w.news
  }

  /** A commit keeps its name exactly when nothing of its chain up to it was legacy. */
  ghost predicate KeepsExactlyTheCurrentPrefixes(before: Reader, rewrites: seq<Rewrite>) {
    forall w, i: nat | w in rewrites && i < |w.olds| && i < |w.news| ::
      w.news[i] == w.olds[i] <==> forall k | 0 <= k <= i :: CurrentAt(before, w.olds[k])
  }

  lemma CurrentPrefixesKept(before: Reader, after: Reader, graph: string, rewrites: seq<Rewrite>)
    requires AllCarried(before, after, graph, rewrites) && Agrees(before, after)
    ensures KeepsExactlyTheCurrentPrefixes(before, rewrites)
  {
    hide IsChain, CurrentAt, Agrees;
    forall w, i: nat | w in rewrites && i < |w.olds| && i < |w.news|
      ensures w.news[i] == w.olds[i] <==> forall k | 0 <= k <= i :: CurrentAt(before, w.olds[k])
    {
      FixesExactlyTheCurrentPrefix(before, after, graph, w.writer, w.olds, w.news, i);
    }
  }

  /** Every commit rewritten for a legacy patch has the message and the tree that the translation gave. */
  ghost predicate TranslatedInto(read: Reader, reread: Reader, translate: Translator, rewrites: seq<Rewrite>) {
    forall w, i: nat | w in rewrites && i < |w.olds| && i < |w.news| && !CurrentAt(read, w.olds[i]) ::
      && translate(w.olds[i]).Some? && reread(w.news[i]).Some?
      && reread(w.news[i]).value.commit.message == translate(w.olds[i]).value.message
      && reread(w.news[i]).value.commit.tree == translate(w.olds[i]).value.tree
  }

  lemma LegacyTranslated(
    origin: Objects, objects: Objects, decode: Decoder, translate: Translator, rewrites: seq<Rewrite>)
    requires TranslatesFaithfully(ReaderOf(origin, decode), decode, translate)
    requires forall w | w in rewrites :: Rewrites(ReaderOf(origin, decode), translate, objects, w.olds, w.news)
    ensures TranslatedInto(ReaderOf(origin, decode), ReaderOf(objects, decode), translate, rewrites)
  {
    hide ReaderOf, Replaces, TranslatesFaithfully, CurrentAt;
    var read, reread := ReaderOf(origin, decode), ReaderOf(objects, decode);
    forall w, i: nat | w in rewrites && i < |w.olds| && i < |w.news| && !CurrentAt(read, w.olds[i])
      ensures translate(w.olds[i]).Some? && reread(w.news[i]).Some?
      ensures reread(w.news[i]).value.commit.message == translate(w.olds[i]).value.message
      ensures reread(w.news[i]).value.commit.tree == translate(w.olds[i]).value.tree
    {
      assert Replaces(read, translate, objects, w.olds[i], w.news[i], Previous(w.news, i));
      ReplacementReads(origin, objects, decode, translate, w.olds[i], w.news[i], Previous(w.news, i));
    }
  }

  /** Chains that stand rewritten carry every patch, and keep their current prefixes. */
  lemma WholeRewritesCarry(t: Task, origin: Objects, objects: Objects, decode: Decoder, rewrites: seq<Rewrite>)
    requires Extends(origin, objects) && t.read == ReaderOf(origin, decode)
    requires TranslatesFaithfully(t.read, decode, t.translate)
    requires forall w | w in rewrites :: RewroteWhole(t, objects, w)
    requires forall a, b | 0 <= a < b < |rewrites| :: rewrites[a].writer != rewrites[b].writer
    ensures Agrees(t.read, ReaderOf(objects, decode))
    ensures AllCarried(t.read, ReaderOf(objects, decode), t.graph, rewrites)
    ensures KeepsExactlyTheCurrentPrefixes(t.read, rewrites)
    ensures TranslatedInto(t.read, ReaderOf(objects, decode), t.translate, rewrites)
  {
    LegacyTranslated(origin, objects, decode, t.translate, rewrites);
    hide TranslatedInto;
    hide ReaderOf, IsChain, Carries, Rewrites, KeepsExactlyTheCurrentPrefixes, AllOids, Extends, TranslatesFaithfully,
         Agrees;
    ReadersAgree(origin, objects, decode);
    forall w | w in rewrites
      ensures Carries(t.read, ReaderOf(objects, decode), w.olds, w.news)
    {
      RewriteCarries(origin, objects, decode, t.translate, w.olds, w.news);
    }
    assert AllCarried(t.read, ReaderOf(objects, decode), t.graph, rewrites);
    CurrentPrefixesKept(t.read, ReaderOf(objects, decode), t.graph, rewrites);
  }

  lemma StillWhole(t: Task, before: Objects, after: Objects, rewrites: seq<Rewrite>)
    requires Extends(before, after) && forall w | w in rewrites :: RewroteWhole(t, before, w)
    ensures forall w | w in rewrites :: RewroteWhole(t, after, w)
  {
    hide Rewrites, IsChain, AllOids, Extends;
    forall w | w in rewrites
      ensures RewroteWhole(t, after, w)
    {
      RewritesPersist(t.read, t.translate, before, after, w.olds, w.news);
    }
  }

  lemma WrittenByMore(rewrites: seq<Rewrite>, r: Rewrite)
    ensures forall s :: WrittenBy(rewrites + [r], s) <==> WrittenBy(rewrites, s) || s in r.news
  {
    forall s
      ensures WrittenBy(rewrites + [r], s) <==> WrittenBy(rewrites, s) || s in r.news
    {
      assert r in rewrites + [r];
      if WrittenBy(rewrites, s) {
        var w :| w in rewrites && s in w.news;
        assert w in rewrites + [r];
      }
    }
  }

  /** With every chain rewritten, the store itself is the growth that holds them all. */
  lemma AllRewritten(
    t: Task, store: Objects, objects: Objects, chains: seq<(string, seq<Sha>)>, rewrites: seq<Rewrite>)
    requires Extends(store, objects) && ContentAddressed(objects, t.hash)
    requires Follow(rewrites, chains) && forall w | w in rewrites :: RewroteWhole(t, objects, w)
    ensures CanRewriteAll(t, store, chains)
  {
    hide IsChain, Rewrites, AllOids;
    forall c | c in chains
      ensures RewrittenIn(t.(writer := c.0), objects, c.1)
    {
      var k :| 0 <= k < |chains| && chains[k] == c;
      assert rewrites[k] in rewrites;
      assert RewroteWhole(t, objects, rewrites[k]);
    }
  }

  /** What was written for the chains so far fits in any store that holds them all. */
  lemma GrownStoreFits(
    t: Task, store: Objects, objects: Objects, chains: seq<(string, seq<Sha>)>, rewrites: seq<Rewrite>,
    later: Objects)
    requires Extends(store, objects) && ContentAddressed(objects, t.hash)
    requires |rewrites| <= |chains| && Follow(rewrites, chains[..|rewrites|])
    requires forall w | w in rewrites :: RewroteWhole(t, objects, w)
    requires forall s | s in objects :: s in store || WrittenBy(rewrites, s)
    requires Extends(store, later) && ContentAddressed(later, t.hash)
    requires forall c | c in chains :: RewrittenIn(t.(writer := c.0), later, c.1)
    ensures Extends(objects, later)
  {
    hide IsChain, Rewrites, AllOids, IsOid;
    forall s | s in objects
      ensures s in later && later[s] == objects[s]
    {
      if s !in store {
        var w :| w in rewrites && s in w.news;
        var k :| 0 <= k < |rewrites| && rewrites[k] == w;
        assert chains[..|rewrites|][k] == chains[k] && chains[k] in chains;
        var other :| Rewrites(t.read, t.translate, later, w.olds, other) && AllOids(other);
        assert RewroteWhole(t, objects, w);
        RewritesUnique(t.read, t.translate, t.hash, objects, later, w.olds, w.news, other);
      }
    }
  }

  /** A chain that cannot be rewritten after the others makes all of them together impossible. */
  lemma ChainBlocksAll(
    t: Task, store: Objects, objects: Objects, chains: seq<(string, seq<Sha>)>, rewrites: seq<Rewrite>, k: nat)
    requires Extends(store, objects) && ContentAddressed(objects, t.hash)
    requires |rewrites| == k < |chains| && Follow(rewrites, chains[..k])
    requires forall w | w in rewrites :: RewroteWhole(t, objects, w)
    requires forall s | s in objects :: s in store || WrittenBy(rewrites, s)
    requires !CanRewrite(t.(writer := chains[k].0), objects, chains[k].1)
    ensures !CanRewriteAll(t, store, chains)
  {
    hide RewrittenIn, RewroteWhole, WrittenBy;
    if CanRewriteAll(t, store, chains) {
      var later :| Extends(store, later) && ContentAddressed(later, t.hash)
                   && forall c | c in chains :: RewrittenIn(t.(writer := c.0), later, c.1);
      GrownStoreFits(t, store, objects, chains, rewrites, later);
      assert false;
    }
  }

  /** One rewrite per chain, in order. */
  predicate Follow(rewrites: seq<Rewrite>, chains: seq<(string, seq<Sha>)>) {
    && |rewrites| == |chains|
    && forall k | 0 <= k < |chains| :: rewrites[k].writer == chains[k].0 && rewrites[k].olds == chains[k].1
  }

  lemma FollowAppend(rewrites: seq<Rewrite>, chains: seq<(string, seq<Sha>)>, r: Rewrite, c: (string, seq<Sha>))
    requires Follow(rewrites, chains) && r.writer == c.0 && r.olds == c.1
    ensures Follow(rewrites + [r], chains + [c])
  {
  }

  lemma MapsNone()
    ensures MapsRewrites(map[], [])
  {
  }

  /** Zipping a chain without repeats sends each commit to its own replacement. */
  lemma {:induction false} ZipSays(olds: seq<Sha>, news: seq<Sha>)
    requires |olds| == |news| && forall i, j | 0 <= i < j < |olds| :: olds[i] != olds[j]
    ensures forall s :: s in Zip(olds, news) <==> s in olds
    ensures forall i | 0 <= i < |olds| :: Zip(olds, news)[olds[i]] == news[i]
  {
    if olds != [] {
      ZipSays(olds[..|olds| - 1], news[..|news| - 1]);
      assert olds == olds[..|olds| - 1] + [olds[|olds| - 1]];
    }
  }

  /** Adding one writer's rewrite to the commit map disturbs no other writer's entries. */
  lemma MapsOneMore(
    read: Reader, graph: string, rewrites: seq<Rewrite>, r: Rewrite, commitMap: map<Sha, Sha>)
    requires MapsRewrites(commitMap, rewrites) && |r.olds| == |r.news|
    requires IsChain(read, graph, r.writer, r.olds)
    requires forall w | w in rewrites :: w.writer != r.writer && IsChain(read, graph, w.writer, w.olds)
    ensures MapsRewrites(commitMap + Zip(r.olds, r.news), rewrites + [r])
  {
    hide IsChain, Zip;
    forall i: nat, j: nat | i < j < |r.olds|
      ensures r.olds[i] != r.olds[j]
    {
      ChainDistinct(read, graph, r.writer, r.olds, i, j);
    }
    ZipSays(r.olds, r.news);
    forall w, s | w in rewrites && s in w.olds
      ensures s !in r.olds
    {
      ChainsOfDistinctWritersAreDisjoint(read, graph, w.writer, r.writer, w.olds, r.olds);
    }
    EntriesKept(rewrites, r, commitMap);
    OnlyEntries(rewrites, r, commitMap);
  }

  lemma EntriesKept(rewrites: seq<Rewrite>, r: Rewrite, commitMap: map<Sha, Sha>)
    requires MapsRewrites(commitMap, rewrites) && |r.olds| == |r.news|
    requires forall w, s | w in rewrites && s in w.olds :: s !in r.olds
    requires forall s :: s in Zip(r.olds, r.news) <==> s in r.olds
    requires forall i | 0 <= i < |r.olds| :: Zip(r.olds, r.news)[r.olds[i]] == r.news[i]
    ensures forall w, i: nat | w in rewrites + [r] && i < |w.olds| ::
              && |w.news| == |w.olds| && w.olds[i] in commitMap + Zip(r.olds, r.news)
              && (commitMap + Zip(r.olds, r.news))[w.olds[i]] == w.news[i]
  {
    hide Zip;
    forall w, i: nat | w in rewrites + [r] && i < |w.olds|
      ensures |w.news| == |w.olds| && w.olds[i] in commitMap + Zip(r.olds, r.news)
              && (commitMap + Zip(r.olds, r.news))[w.olds[i]] == w.news[i]
    {
      if w != r {
        assert w in rewrites && w.olds[i] in w.olds;
      }
    }
  }

  lemma OnlyEntries(rewrites: seq<Rewrite>, r: Rewrite, commitMap: map<Sha, Sha>)
    requires MapsRewrites(commitMap, rewrites) && |r.olds| == |r.news|
    requires forall s :: s in Zip(r.olds, r.news) <==> s in r.olds
    ensures forall s | s in commitMap + Zip(r.olds, r.news) ::
              exists w, i: nat :: w in rewrites + [r] && i < |w.olds| && w.olds[i] == s
  {
    hide Zip;
    forall s | s in commitMap + Zip(r.olds, r.news)
      ensures exists w, i: nat :: w in rewrites + [r] && i < |w.olds| && w.olds[i] == s
    {
      if s in Zip(r.olds, r.news) {
        var i :| 0 <= i < |r.olds| && r.olds[i] == s;
        assert r in rewrites + [r];
      } else {
        var w, i: nat :| w in rewrites && i < |w.olds| && w.olds[i] == s;
        assert w in rewrites + [r];
      }
    }
  }
}
