/** Patch commits: the trailer routes of V18PatchCommit.ts over a parsed commit. */
module PatchCommits {
  import opened Wrappers
  import opened Text
  import opened CommitCodec

  type Sha = string

  /** The trailers the message codec reads out of a commit message. */
  type Trailers = map<string, string>

  datatype Storage =
    | CurrentStorage(handle: string, encrypted: bool)
    | GitCasStorage(oid: string, encrypted: bool)
    | LegacyBlob(oid: string)
  {
    predicate Encrypted() { !LegacyBlob? && encrypted }
  }

  datatype PatchCommit = PatchCommit(
    commit: GitCommit, graph: string, lamport: nat, schema: nat, storage: Storage, writer: string)
  {
    /** `commit.parents[0] ?? null` */
    function Parent(): Option<Sha> {
      if commit.parents == [] then None else Some(commit.parents[0])
    }
  }

  datatype PatchError =
    | Unreadable
    | BadCommit(error: ParseError)
    | NotAPatch
    | MissingTrailer(name: string)
    | InvalidTrailer(name: string)
    | UnsupportedRoute

  function Trailer(trailers: Trailers, name: string): Option<string> {
    if name in trailers then Some(trailers[name]) else None
  }

  /** A positive decimal without leading zeros. */
  predicate PositiveInteger(s: string) {
    AllDigits(s) && |s| > 0 && s[0] != '0'
  }

  function RequireTrailer(trailers: Trailers, name: string): Result<string, PatchError> {
    match Trailer(trailers, name)
    case None => Failure(MissingTrailer(name))
    case Some(v) => if v == "" then Failure(MissingTrailer(name)) else Success(v)
  }

  function RequirePositive(trailers: Trailers, name: string): Result<nat, PatchError> {
    match RequireTrailer(trailers, name)
    case Failure(e) => Failure(e)
    case Success(v) => if PositiveInteger(v) then Success(Number(v)) else Failure(InvalidTrailer(name))
  }

  function ParseStorage(trailers: Trailers): Result<Storage, PatchError> {
    var encryption := Trailer(trailers, "eg-encrypted");
    if encryption.Some? && encryption.value != "true" then Failure(InvalidTrailer("eg-encrypted"))
    else
      var encrypted := encryption.Some?;
      var version := Trailer(trailers, "eg-storage-version");
      var schema := Trailer(trailers, "eg-storage-schema");
      match Trailer(trailers, "eg-patch-handle")
      case Some(handle) =>
        if version == Some("v19") && schema == Some("git-cas-asset-patch-v1")
        then Success(CurrentStorage(handle, encrypted))
        else Failure(UnsupportedRoute)
      case None =>
        match RequireTrailer(trailers, "eg-patch-oid")
        case Failure(e) => Failure(e)
        case Success(oid) =>
          if !IsOid(oid) then Failure(InvalidTrailer("eg-patch-oid"))
          else if version == Some("v17") && schema == Some("git-cas-cbor-patch-v1")
          then Success(GitCasStorage(oid, encrypted))
          else if version == None && schema == None && !encrypted then Success(LegacyBlob(oid))
          else Failure(UnsupportedRoute)
  }

  function ParsePatchMessage(commit: GitCommit, trailers: Trailers): Result<PatchCommit, PatchError> {
    if Trailer(trailers, "eg-kind") != Some("patch") then Failure(NotAPatch)
    else
      match RequireTrailer(trailers, "eg-graph")
      case Failure(e) => Failure(e)
      case Success(graph) =>
        match RequireTrailer(trailers, "eg-writer")
        case Failure(e) => Failure(e)
        case Success(writer) =>
          match RequirePositive(trailers, "eg-lamport")
          case Failure(e) => Failure(e)
          case Success(lamport) =>
            match RequirePositive(trailers, "eg-schema")
            case Failure(e) => Failure(e)
            case Success(schema) =>
              match ParseStorage(trailers)
              case Failure(e) => Failure(e)
              case Success(storage) => Success(PatchCommit(commit, graph, lamport, schema, storage, writer))
  }

  /** Commit objects by name, as text. */
  type Objects = map<Sha, string>

  /** Reads one object through the batch reader and parses it as a patch commit. */
  function ReadPatchCommit(objects: Objects, decode: string -> Trailers, sha: Sha): Result<PatchCommit, PatchError> {
    if sha !in objects then Failure(Unreadable)
    else
      match ParseCommit(sha, objects[sha])
      case Failure(e) => Failure(BadCommit(e))
      case Success(commit) => ParsePatchMessage(commit, decode(commit.message))
  }

  /** The trailers of a migrated patch commit. */
  function CurrentTrailers(graph: string, writer: string, lamport: nat, schema: nat, handle: string, encrypted: bool)
    : Trailers
  {
    var plain := map[
                   "eg-kind" := "patch", "eg-graph" := graph, "eg-writer" := writer,
                   "eg-lamport" := Decimal(lamport), "eg-schema" := Decimal(schema), "eg-patch-handle" := handle,
                   "eg-storage-version" := "v19", "eg-storage-schema" := "git-cas-asset-patch-v1"];
    if encrypted then plain["eg-encrypted" := "true"] else plain
  }

  lemma {:induction false} PositiveDecimal(n: nat)
    requires n > 0
    ensures PositiveInteger(Decimal(n))
  {
    if n >= 10 {
      PositiveDecimal(n / 10);
      assert Decimal(n)[0] == Decimal(n / 10)[0];
    }
  }

  /** The message the migrator writes for a legacy patch reads back as that patch, in current storage. */
  lemma MigratedMessageReadsBack(
    commit: GitCommit, graph: string, writer: string, lamport: nat, schema: nat, handle: string, encrypted: bool)
    requires graph != "" && writer != "" && lamport > 0 && schema > 0
    ensures ParsePatchMessage(commit, CurrentTrailers(graph, writer, lamport, schema, handle, encrypted))
         == Success(PatchCommit(commit, graph, lamport, schema, CurrentStorage(handle, encrypted), writer))
  {
    PositiveDecimal(lamport);
    PositiveDecimal(schema);
    NumberOfDecimal(lamport);
    NumberOfDecimal(schema);
  }

  /** The trailer has this value. */
  predicate Has(trailers: Trailers, name: string, value: string) {
    name in trailers && trailers[name] == value
  }

  /** The trailers of one storage route, and no other. */
  predicate Routes(trailers: Trailers, storage: Storage) {
    match storage
    case CurrentStorage(handle, _) =>
      && Has(trailers, "eg-patch-handle", handle)
      && Has(trailers, "eg-storage-version", "v19") && Has(trailers, "eg-storage-schema", "git-cas-asset-patch-v1")
    case GitCasStorage(oid, _) =>
      && "eg-patch-handle" !in trailers && Has(trailers, "eg-patch-oid", oid)
      && Has(trailers, "eg-storage-version", "v17") && Has(trailers, "eg-storage-schema", "git-cas-cbor-patch-v1")
    case LegacyBlob(oid) =>
      && "eg-patch-handle" !in trailers && Has(trailers, "eg-patch-oid", oid)
      && "eg-storage-version" !in trailers && "eg-storage-schema" !in trailers
  }

  /**
   The storage a patch has, told by its trailers: encrypted exactly if `eg-encrypted` says so,
   which may say nothing else; behind a handle, behind a v17 object, or a plain blob. Every
   other message is refused.
   */
  lemma StorageExactly(trailers: Trailers, storage: Storage)
    ensures ParseStorage(trailers) == Success(storage)
       <==> && (storage.Encrypted() <==> "eg-encrypted" in trailers)
            && ("eg-encrypted" in trailers ==> trailers["eg-encrypted"] == "true")
            && Routes(trailers, storage)
            && (storage.GitCasStorage? || storage.LegacyBlob? ==>
                  (|storage.oid| == 40 || |storage.oid| == 64)
                  && forall c | c in storage.oid :: c in "0123456789abcdef")
  {
    hide IsOid;
    if !storage.CurrentStorage? {
      OidExactly(storage.oid);
    }
    if "eg-patch-oid" in trailers {
      OidExactly(trailers["eg-patch-oid"]);
    }
  }

  /**
   A message parses as a patch exactly if it is of kind `patch`, names a graph and a writer,
   writes a positive Lamport time and schema without leading zeros, and has one of the routes.
   */
  lemma PatchExactly(commit: GitCommit, trailers: Trailers, p: PatchCommit)
    ensures ParsePatchMessage(commit, trailers) == Success(p)
       <==> && p.commit == commit && Has(trailers, "eg-kind", "patch")
            && p.graph != "" && Has(trailers, "eg-graph", p.graph)
            && p.writer != "" && Has(trailers, "eg-writer", p.writer)
            && p.lamport > 0 && Has(trailers, "eg-lamport", Decimal(p.lamport))
            && p.schema > 0 && Has(trailers, "eg-schema", Decimal(p.schema))
            && ParseStorage(trailers) == Success(p.storage)
  {
    hide ParseStorage;
    PositiveExactly(trailers, "eg-lamport", p.lamport);
    PositiveExactly(trailers, "eg-schema", p.schema);
  }

  lemma PositiveExactly(trailers: Trailers, name: string, n: nat)
    ensures RequirePositive(trailers, name) == Success(n) <==> n > 0 && Has(trailers, name, Decimal(n))
    ensures RequirePositive(trailers, name).Success? ==> RequirePositive(trailers, name).value > 0
  {
    hide Decimal, Number;
    if name in trailers && PositiveInteger(trailers[name]) {
      DecimalOfNumber(trailers[name]);
    }
    if n > 0 {
      PositiveDecimal(n);
      NumberOfDecimal(n);
    }
  }

  /** A commit reads as a patch exactly if its text parses and the trailers of its message do. */
  lemma ReadsExactly(objects: Objects, decode: string -> Trailers, sha: Sha, p: PatchCommit)
    ensures ReadPatchCommit(objects, decode, sha) == Success(p)
       <==> && sha in objects && ParseCommit(sha, objects[sha]) == Success(p.commit)
            && ParsePatchMessage(p.commit, decode(p.commit.message)) == Success(p)
  {
    hide ParseCommit, ParsePatchMessage;
    if sha in objects && ParseCommit(sha, objects[sha]).Success? {
      var commit := ParseCommit(sha, objects[sha]).value;
      if ParsePatchMessage(commit, decode(commit.message)).Success? {
        PatchExactly(commit, decode(commit.message), ParsePatchMessage(commit, decode(commit.message)).value);
      }
    }
  }

  /** What any parsed patch commit satisfies. */
  lemma ParsedPatch(commit: GitCommit, trailers: Trailers)
    requires ParsePatchMessage(commit, trailers).Success?
    ensures var p := ParsePatchMessage(commit, trailers).value;
            p.commit == commit && p.graph != "" && p.writer != "" && p.lamport > 0 && p.schema > 0
  {
    var lamport, schema := trailers["eg-lamport"], trailers["eg-schema"];
    PositiveNumber(lamport);
    PositiveNumber(schema);
  }

  lemma {:induction false} PositiveNumber(s: string)
    requires PositiveInteger(s)
    ensures Number(s) > 0
  {
    if |s| > 1 {
      PositiveNumber(s[..|s| - 1]);
    } else {
      assert s[..0] == "";
    }
  }
}
