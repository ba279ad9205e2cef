/**
 The commit text codec: the parser of V18PatchCommit.ts and the printer of
 V18MigrationGitCommitWriter.ts, on decoded text.
 */
module CommitCodec {
  import opened Wrappers
  import opened Text

  datatype Identity = Identity(email: string, name: string, timestamp: string, timezone: string)

  datatype GitCommit = GitCommit(
    author: Identity, committer: Identity, message: string, parents: seq<string>, sha: string, tree: string)

  datatype CommitRecord = CommitRecord(
    author: Identity, committer: Identity, message: string, parent: Option<string>, tree: string)

  datatype ParseError =
    | NoMessageSeparator
    | ContinuationHeader
    | MalformedHeader
    | UnsupportedHeader
    | MergeCommit
    | NotExactlyOne(header: string)
    | UnsupportedIdentity(role: string)
    | TreeNotAnOid

  // ---------------------------------------------------------------- identities

  /** The characters a regular expression's dot accepts. */
  predicate DotText(s: string) {
    forall i | 0 <= i < |s| ::
      s[i] != '\n' && s[i] != '\r' && s[i] != '\U{2028}' && s[i] != '\U{2029}'
  }

  predicate NoAngles(s: string) {
    forall i | 0 <= i < |s| :: s[i] != '<' && s[i] != '>'
  }

  predicate IsTimezone(s: string) {
    |s| == 5 && (s[0] == '+' || s[0] == '-') && AllDigits(s[1..])
  }

  function IdentityText(id: Identity): string {
    id.name + " <" + id.email + "> " + id.timestamp + " " + id.timezone
  }

  /** What the identity pattern matches, and the groups it captures. */
  predicate MatchesIdentity(value: string, id: Identity) {
    && value == IdentityText(id)
    && DotText(id.name)
    && NoAngles(id.email)
    && |id.timestamp| > 0 && AllDigits(id.timestamp)
    && IsTimezone(id.timezone)
  }

  /** Splits an identity at its last `<`, the `>` after it, and the last six characters. */
  function ParseIdentity(value: string): Option<Identity> {
    match LastIndex(value, '<')
    case None => None
    case Some(open) =>
      var rest := value[open + 1..];
      match FirstIndex(rest, '>')
      case None => None
      case Some(close) =>
        var after := rest[close + 1..];
        if open < 1 || |after| < 8 then None
        else
          var id := Identity(
                      rest[..close], value[..open - 1], after[1..|after| - 6], after[|after| - 5..]);
          if MatchesIdentity(value, id) then Some(id) else None
  }

  /** Everything after the opening angle bracket. */
  function IdentityTail(id: Identity): string {
    id.email + "> " + id.timestamp + " " + id.timezone
  }

  lemma TailHasNoOpenAngle(id: Identity)
    requires NoAngles(id.email) && AllDigits(id.timestamp) && IsTimezone(id.timezone)
    ensures Lacks(IdentityTail(id), '<')
  {
    var zone := id.timezone;
    assert forall i | 1 <= i < 5 :: zone[i] == zone[1..][i - 1];
    assert Lacks(zone, '<');
    var a := id.email + "> ";
    assert Lacks(a, '<');
    var b := a + id.timestamp + " ";
    assert Lacks(b, '<');
    assert IdentityTail(id) == b + zone;
  }

  lemma TailSplits(id: Identity)
    requires NoAngles(id.email) && IsTimezone(id.timezone)
    ensures FirstIndex(IdentityTail(id), '>') == Some(|id.email|)
    ensures IdentityTail(id)[..|id.email|] == id.email
    ensures IdentityTail(id)[|id.email| + 1..] == " " + id.timestamp + " " + id.timezone
  {
    var tail := IdentityTail(id);
    assert tail == id.email + (">" + (" " + id.timestamp + " " + id.timezone));
    assert tail[|id.email|] == '>';
    assert forall i | 0 <= i < |id.email| :: tail[i] == id.email[i];
  }

  lemma IdentitySplits(id: Identity)
    requires Lacks(IdentityTail(id), '<')
    ensures LastIndex(IdentityText(id), '<') == Some(|id.name| + 1)
    ensures IdentityText(id)[|id.name| + 2..] == IdentityTail(id)
    ensures IdentityText(id)[..|id.name|] == id.name
  {
    var value := IdentityText(id);
    assert value == id.name + " <" + IdentityTail(id);
    assert forall i | |id.name| + 2 <= i < |value| :: value[i] == IdentityTail(id)[i - |id.name| - 2];
    assert value[|id.name| + 1] == '<';
  }

  lemma MatchedText(value: string, id: Identity)
    requires MatchesIdentity(value, id)
    ensures value == IdentityText(id) && |id.timezone| == 5 && |id.timestamp| > 0
  {
  }

  lemma MatchedIdentityIsParsed(value: string, id: Identity)
    requires MatchesIdentity(value, id)
    ensures ParseIdentity(value) == Some(id)
  {
    hide IdentityText, IdentityTail, Lacks, FirstIndex, LastIndex;
    TailHasNoOpenAngle(id);
    TailSplits(id);
    IdentitySplits(id);
    MatchedText(value, id);
    var after := " " + id.timestamp + " " + id.timezone;
    assert after[1..|after| - 6] == id.timestamp;
    assert after[|after| - 5..] == id.timezone;
  }

  /** The pattern matches a header value in at most one way, and the parser finds it. */
  lemma ParseIdentityExact(value: string, id: Identity)
    ensures ParseIdentity(value) == Some(id) <==> MatchesIdentity(value, id)
  {
    if MatchesIdentity(value, id) {
      MatchedIdentityIsParsed(value, id);
    }
  }

  predicate Printable(id: Identity) {
    && (forall i | 0 <= i < |id.name| ::
          id.name[i] != '\0' && id.name[i] != '\n' && id.name[i] != '\r')
    && (forall i | 0 <= i < |id.email| ::
          id.email[i] != '\0' && id.email[i] != '\n' && id.email[i] != '\r'
          && id.email[i] != '<' && id.email[i] != '>')
    && |id.timestamp| > 0 && AllDigits(id.timestamp)
    && IsTimezone(id.timezone)
  }

  /** The printer refuses an identity it could not write back unchanged. */
  function FormatIdentity(id: Identity): Option<string> {
    if Printable(id) then Some(IdentityText(id)) else None
  }

  // ------------------------------------------------------------------- printer

  function SerializeCommit(record: CommitRecord): Option<string> {
    if !IsOid(record.tree) || (record.parent.Some? && !IsOid(record.parent.value)) then None
    else
      match (FormatIdentity(record.author), FormatIdentity(record.committer))
      case (Some(author), Some(committer)) =>
        Some(Joined(HeaderLines(record.tree, record.parent, author, committer) + ["", record.message]))
      case _ => None
  }

  /** The header lines in the order Git writes them. */
  function HeaderLines(tree: string, parent: Option<string>, author: string, committer: string): seq<string> {
    ["tree " + tree] + (if parent.Some? then ["parent " + parent.value] else [])
    + ["author " + author, "committer " + committer]
  }

  // -------------------------------------------------------------------- parser

  datatype Field = Field(name: string, value: string)

  /** A header is a non-empty name, one space, and the value. */
  function SplitHeader(h: string): Option<Field> {
    match FirstIndex(h, ' ')
    case None => None
    case Some(space) => if space == 0 then None else Some(Field(h[..space], h[space + 1..]))
  }

  /** All headers split, unless one is malformed. */
  function Fields(headers: seq<string>): Option<seq<Field>> {
    if headers == [] then Some([])
    else
      match (Fields(headers[..|headers| - 1]), SplitHeader(headers[|headers| - 1]))
      case (Some(front), Some(last)) => Some(front + [last])
      case _ => None
  }

  predicate KnownHeader(name: string) {
    name == "tree" || name == "parent" || name == "author" || name == "committer"
  }

  /** The values of every header with one name, in order. */
  function Values(fields: seq<Field>, name: string): seq<string> {
    if fields == [] then []
    else
      var last := fields[|fields| - 1];
      Values(fields[..|fields| - 1], name) + (if last.name == name then [last.value] else [])
  }

  function ParseCommit(sha: string, raw: string): Result<GitCommit, ParseError> {
    match BlankLine(raw)
    case None => Failure(NoMessageSeparator)
    case Some(separator) => ParseHeaderBlock(sha, Lines(raw[..separator]), raw[separator + 2..])
  }

  function ParseHeaderBlock(sha: string, headers: seq<string>, message: string): Result<GitCommit, ParseError> {
    if exists i | 0 <= i < |headers| :: [' '] <= headers[i] then Failure(ContinuationHeader)
    else
      match Fields(headers)
      case None => Failure(MalformedHeader)
      case Some(fields) =>
        if exists i | 0 <= i < |fields| :: !KnownHeader(fields[i].name) then Failure(UnsupportedHeader)
        else
          BuildCommit(sha, Values(fields, "parent"), Values(fields, "author"),
                      Values(fields, "committer"), Values(fields, "tree"), message)
  }

  function BuildCommit(
    sha: string, parents: seq<string>, authors: seq<string>, committers: seq<string>, trees: seq<string>,
    message: string): Result<GitCommit, ParseError>
  {
    if |parents| > 1 then Failure(MergeCommit)
    else if |authors| != 1 then Failure(NotExactlyOne("author"))
    else if ParseIdentity(authors[0]).None? then Failure(UnsupportedIdentity("author"))
    else if |committers| != 1 then Failure(NotExactlyOne("committer"))
    else if ParseIdentity(committers[0]).None? then Failure(UnsupportedIdentity("committer"))
    else if |trees| != 1 then Failure(NotExactlyOne("tree"))
    else if !IsOid(trees[0]) then Failure(TreeNotAnOid)
    else
      Success(GitCommit(
                ParseIdentity(authors[0]).value, ParseIdentity(committers[0]).value, message, parents, sha, trees[0]))
  }

  /** A key's entries in the header map; a missing key has none. */
  function Entries(values: map<string, seq<string>>, name: string): seq<string> {
    if name in values then values[name] else []
  }

  lemma {:induction false} ValuesNeedAField(fields: seq<Field>, name: string)
    ensures Values(fields, name) == [] <==> forall i | 0 <= i < |fields| :: fields[i].name != name
  {
    if fields != [] {
      ValuesNeedAField(fields[..|fields| - 1], name);
    }
  }

  lemma {:induction false} FieldsPrefix(headers: seq<string>, k: nat)
    requires k <= |headers|
    ensures Fields(headers).Some? ==> Fields(headers[..k]).Some?
  {
    if k < |headers| {
      FieldsPrefix(headers[..|headers| - 1], k);
      assert headers[..|headers| - 1][..k] == headers[..k];
    } else {
      assert headers[..k] == headers;
    }
  }

  /** The loop that files each header's value under its name. */
  method FileHeaders(headers: seq<string>) returns (values: Option<map<string, seq<string>>>)
    ensures values.Some? <==> Fields(headers).Some?
    ensures values.Some? ==> forall n :: Entries(values.value, n) == Values(Fields(headers).value, n)
    ensures values.Some? ==> forall n | n in values.value :: values.value[n] != []
  {
    var filed: map<string, seq<string>> := map[];
    for k := 0 to |headers|
      invariant Fields(headers[..k]).Some?
      invariant forall n :: Entries(filed, n) == Values(Fields(headers[..k]).value, n)
      invariant forall n | n in filed :: filed[n] != []
    {
      assert headers[..k + 1][..k] == headers[..k];
      var field := SplitHeader(headers[k]);
      if field.None? {
        FieldsPrefix(headers, k + 1);
        return None;
      }
      var name, value := field.value.name, field.value.value;
      filed := Filed(filed, Fields(headers[..k]).value, name, value);
    }
    assert headers[..|headers|] == headers;
    values := Some(filed);
  }

  /** One turn of the loop: append the value to its name's entries. */
  method Filed(values: map<string, seq<string>>, ghost fields: seq<Field>, name: string, value: string)
    returns (next: map<string, seq<string>>)
    requires forall n :: Entries(values, n) == Values(fields, n)
    requires forall n | n in values :: values[n] != []
    ensures forall n :: Entries(next, n) == Values(fields + [Field(name, value)], n)
    ensures forall n | n in next :: next[n] != []
  {
    next := values[name := Entries(values, name) + [value]];
    assert (fields + [Field(name, value)])[..|fields|] == fields;
    forall n
      ensures Entries(next, n) == Values(fields + [Field(name, value)], n)
    {
      assert Entries(values, n) == Values(fields, n);
    }
  }

  /** The parser as it runs: it fills the header map, then reads the four headers it knows. */
  method ParseGitCommit(sha: string, raw: string) returns (r: Result<GitCommit, ParseError>)
    ensures r == ParseCommit(sha, raw)
  {
    hide BlankLine, Lines, BuildCommit, KnownHeader, Fields, Values;
    var separator := BlankLine(raw);
    if separator.None? {
      return Failure(NoMessageSeparator);
    }
    var headers := Lines(raw[..separator.value]);
    if exists i | 0 <= i < |headers| :: [' '] <= headers[i] {
      return Failure(ContinuationHeader);
    }
    var filed := FileHeaders(headers);
    if filed.None? {
      return Failure(MalformedHeader);
    }
    var values := filed.value;
    OnlyKnownHeaders(Fields(headers).value, values);
    if exists n | n in values.Keys :: !KnownHeader(n) {
      return Failure(UnsupportedHeader);
    }
    r := BuildCommit(sha, Entries(values, "parent"), Entries(values, "author"),
                     Entries(values, "committer"), Entries(values, "tree"), raw[separator.value + 2..]);
  }

  lemma OnlyKnownHeaders(fields: seq<Field>, values: map<string, seq<string>>)
    requires forall n :: Entries(values, n) == Values(fields, n)
    requires forall n | n in values :: values[n] != []
    ensures (exists n | n in values :: !KnownHeader(n))
       <==> (exists i | 0 <= i < |fields| :: !KnownHeader(fields[i].name))
  {
    forall n
      ensures n in values <==> exists i | 0 <= i < |fields| :: fields[i].name == n
    {
      assert Entries(values, n) == Values(fields, n);
      ValuesNeedAField(fields, n);
    }
  }

  // --------------------------------------------------------------- round trips

  /** The parsed form a record stands for. */
  function CommitOf(sha: string, record: CommitRecord): GitCommit {
    GitCommit(record.author, record.committer, record.message,
              if record.parent.Some? then [record.parent.value] else [], sha, record.tree)
  }

  /** The record that recreates a parsed commit. */
  function RecordOf(commit: GitCommit): CommitRecord {
    CommitRecord(commit.author, commit.committer, commit.message,
                 if commit.parents == [] then None else Some(commit.parents[0]), commit.tree)
  }

  function HeaderFields(tree: string, parent: Option<string>, author: string, committer: string): seq<Field> {
    [Field("tree", tree)] + (if parent.Some? then [Field("parent", parent.value)] else [])
    + [Field("author", author), Field("committer", committer)]
  }

  lemma ValuesAppend(fields: seq<Field>, f: Field, name: string)
    ensures Values(fields + [f], name) == Values(fields, name) + (if f.name == name then [f.value] else [])
  {
    assert (fields + [f])[..|fields|] == fields;
  }

  lemma ValuesOfHeaderFields(tree: string, parent: Option<string>, author: string, committer: string)
    ensures var fields := HeaderFields(tree, parent, author, committer);
            && Values(fields, "tree") == [tree]
            && Values(fields, "parent") == (if parent.Some? then [parent.value] else [])
            && Values(fields, "author") == [author]
            && Values(fields, "committer") == [committer]
  {
    var one := [Field("tree", tree)];
    var two := one + (if parent.Some? then [Field("parent", parent.value)] else []);
    var three := two + [Field("author", author)];
    var fields := HeaderFields(tree, parent, author, committer);
    assert fields == three + [Field("committer", committer)];
    forall n
      ensures Values(fields, n)
           == (if "tree" == n then [tree] else [])
              + (if parent.Some? && "parent" == n then [parent.value] else [])
              + (if "author" == n then [author] else [])
              + (if "committer" == n then [committer] else [])
    {
      ValuesAppend([], Field("tree", tree), n);
      assert one == [] + [Field("tree", tree)];
      if parent.Some? {
        ValuesAppend(one, Field("parent", parent.value), n);
      }
      ValuesAppend(two, Field("author", author), n);
      ValuesAppend(three, Field("committer", committer), n);
    }
  }

  lemma SplitNamed(name: string, value: string)
    requires name != "" && Lacks(name, ' ')
    ensures SplitHeader(name + " " + value) == Some(Field(name, value))
  {
    var h := name + " " + value;
    assert h[|name|] == ' ';
    assert forall i | 0 <= i < |name| :: h[i] == name[i];
    assert h[..|name|] == name && h[|name| + 1..] == value;
  }

  lemma FieldsAppend(headers: seq<string>, h: string)
    requires Fields(headers).Some? && SplitHeader(h).Some?
    ensures Fields(headers + [h]) == Some(Fields(headers).value + [SplitHeader(h).value])
  {
    assert (headers + [h])[..|headers|] == headers;
  }

  /** The header lines spell the header fields. */
  lemma HeaderLinesSpell(tree: string, parent: Option<string>, author: string, committer: string)
    ensures HeaderLines(tree, parent, author, committer) == Spelled(HeaderFields(tree, parent, author, committer))
  {
    assert "tree" + " " == "tree " && "parent" + " " == "parent ";
    assert "author" + " " == "author " && "committer" + " " == "committer ";
  }

  function Spelled(fields: seq<Field>): seq<string> {
    seq(|fields|, i requires 0 <= i < |fields| => fields[i].name + " " + fields[i].value)
  }

  lemma {:induction false} FieldsOfSpelled(fields: seq<Field>)
    requires forall f | f in fields :: f.name != "" && Lacks(f.name, ' ')
    ensures Fields(Spelled(fields)) == Some(fields)
  {
    hide SplitHeader, Lacks;
    if fields != [] {
      var front, last := fields[..|fields| - 1], fields[|fields| - 1];
      FieldsOfSpelled(front);
      SplitNamed(last.name, last.value);
      FieldsAppend(Spelled(front), last.name + " " + last.value);
      assert Spelled(fields) == Spelled(front) + [last.name + " " + last.value];
      assert fields == front + [last];
    }
  }

  lemma FieldsOfHeaderLines(tree: string, parent: Option<string>, author: string, committer: string)
    ensures Fields(HeaderLines(tree, parent, author, committer)) == Some(HeaderFields(tree, parent, author, committer))
  {
    HeaderLinesSpell(tree, parent, author, committer);
    FieldsOfSpelled(HeaderFields(tree, parent, author, committer));
  }

  predicate HeaderLine(l: string) {
    l != "" && Lacks(l, '\n')
  }

  /** Joined header lines neither start nor end with a newline and hold no blank line. */
  lemma {:induction false} JoinedHeaders(ls: seq<string>)
    requires |ls| > 0 && forall l | l in ls :: HeaderLine(l)
    ensures var j := Joined(ls);
            && |j| > 0 && j[0] != '\n' && j[|j| - 1] != '\n'
            && forall i | 0 <= i < |j| - 1 :: !(j[i] == '\n' && j[i + 1] == '\n')
  {
    assert HeaderLine(ls[0]);
    if |ls| > 1 {
      JoinedHeaders(ls[1..]);
      var rest := Joined(ls[1..]);
      var j := Joined(ls);
      assert j == ls[0] + "\n" + rest;
      assert forall i | 0 <= i < |ls[0]| :: j[i] == ls[0][i];
      assert forall i | |ls[0]| < i < |j| :: j[i] == rest[i - |ls[0]| - 1];
    }
  }

  lemma {:induction false} LinesOfJoined(ls: seq<string>)
    requires |ls| > 0 && forall l | l in ls :: Lacks(l, '\n')
    ensures Lines(Joined(ls)) == ls
  {
    assert ls[0] in ls;
    if |ls| == 1 {
      LinesOfOne(ls[0]);
    } else {
      LinesOfJoined(ls[1..]);
      LinesOfFirst(ls[0], Joined(ls[1..]));
      assert ls == [ls[0]] + ls[1..];
    }
  }

  lemma {:induction false} JoinedMessage(ls: seq<string>, message: string)
    requires |ls| > 0
    ensures Joined(ls + ["", message]) == Joined(ls) + "\n\n" + message
  {
    if |ls| == 1 {
      assert (ls + ["", message])[1..] == ["", message];
      assert ["", message][1..] == [message];
      assert Joined(["", message]) == "\n" + message;
      assert "\n" + ("\n" + message) == "\n\n" + message;
    } else {
      JoinedMessage(ls[1..], message);
      assert (ls + ["", message])[1..] == ls[1..] + ["", message];
      assert ls[0] + "\n" + (Joined(ls[1..]) + "\n\n" + message) == ls[0] + "\n" + Joined(ls[1..]) + "\n\n" + message;
    }
  }

  /** A header block and a message come apart exactly where they were put together. */
  lemma BlankLineAfterHeaders(ls: seq<string>, message: string)
    requires |ls| > 0 && forall l | l in ls :: HeaderLine(l)
    ensures var raw := Joined(ls) + "\n\n" + message;
            && BlankLine(raw) == Some(|Joined(ls)|)
            && raw[..|Joined(ls)|] == Joined(ls)
            && raw[|Joined(ls)| + 2..] == message
  {
    JoinedHeaders(ls);
    var j := Joined(ls);
    var raw := j + "\n\n" + message;
    assert forall i | 0 <= i < |j| :: raw[i] == j[i];
    assert raw[|j|] == '\n' && raw[|j| + 1] == '\n';
    assert forall i | 0 <= i < |j| :: !(raw[i] == '\n' && raw[i + 1] == '\n');
  }

  lemma OidIsALine(s: string)
    requires IsOid(s)
    ensures Lacks(s, '\n')
  {
    assert forall i | 0 <= i < |s| :: IsHex(s[i]);
  }

  lemma IdentityIsALine(id: Identity)
    requires Printable(id)
    ensures Lacks(IdentityText(id), '\n')
  {
    var zone := id.timezone;
    assert forall i | 1 <= i < 5 :: zone[i] == zone[1..][i - 1];
    assert Lacks(zone, '\n') && Lacks(id.timestamp, '\n') && Lacks(id.email, '\n') && Lacks(id.name, '\n');
    var a := id.name + " <";
    assert Lacks(a, '\n');
    var b := a + id.email;
    assert Lacks(b, '\n');
    var c := b + "> " + id.timestamp + " ";
    assert Lacks(c, '\n');
    assert IdentityText(id) == c + zone;
  }

  lemma NamedLine(name: string, value: string)
    requires name != "" && name[0] != ' ' && Lacks(name, '\n') && Lacks(value, '\n')
    ensures HeaderLine(name + value) && !([' '] <= name + value)
  {
    assert (name + value)[0] == name[0];
  }

  lemma SerializedHeaderLines(record: CommitRecord)
    requires SerializeCommit(record).Some?
    ensures forall l | l in HeaderLines(record.tree, record.parent, IdentityText(record.author),
                                        IdentityText(record.committer)) ::
              HeaderLine(l) && !([' '] <= l)
  {
    OidIsALine(record.tree);
    IdentityIsALine(record.author);
    IdentityIsALine(record.committer);
    NamedLine("tree ", record.tree);
    NamedLine("author ", IdentityText(record.author));
    NamedLine("committer ", IdentityText(record.committer));
    var ls := HeaderLines(record.tree, record.parent, IdentityText(record.author), IdentityText(record.committer));
    if record.parent.Some? {
      OidIsALine(record.parent.value);
      NamedLine("parent ", record.parent.value);
      assert ls == ["tree " + record.tree, "parent " + record.parent.value,
                    "author " + IdentityText(record.author), "committer " + IdentityText(record.committer)];
    } else {
      assert ls == ["tree " + record.tree,
                    "author " + IdentityText(record.author), "committer " + IdentityText(record.committer)];
    }
  }

  /** A block of header lines and a message parse as that block and that message. */
  lemma ParseOfBlock(sha: string, ls: seq<string>, message: string)
    requires |ls| > 0 && forall l | l in ls :: HeaderLine(l)
    ensures ParseCommit(sha, Joined(ls + ["", message])) == ParseHeaderBlock(sha, ls, message)
  {
    JoinedMessage(ls, message);
    BlankLineAfterHeaders(ls, message);
    LinesOfJoined(ls);
  }

  lemma ParseOfHeaderLines(
    sha: string, tree: string, parent: Option<string>, author: string, committer: string, message: string)
    requires forall l | l in HeaderLines(tree, parent, author, committer) :: !([' '] <= l)
    ensures ParseHeaderBlock(sha, HeaderLines(tree, parent, author, committer), message)
         == BuildCommit(sha, if parent.Some? then [parent.value] else [], [author], [committer], [tree], message)
  {
    hide HeaderLines, HeaderFields, BuildCommit, KnownHeader, Fields, Values;
    FieldsOfHeaderLines(tree, parent, author, committer);
    ValuesOfHeaderFields(tree, parent, author, committer);
    HeaderFieldsKnown(tree, parent, author, committer);
    var ls := HeaderLines(tree, parent, author, committer);
    assert forall i | 0 <= i < |ls| :: ls[i] in ls;
  }

  lemma HeaderFieldsKnown(tree: string, parent: Option<string>, author: string, committer: string)
    ensures forall f | f in HeaderFields(tree, parent, author, committer) :: KnownHeader(f.name)
  {
  }

  /**
   Parsing a printed record gives the record back, except that the parser's identity
   pattern refuses a name holding a line separator the printer let through.
   */
  lemma ParseSerialized(sha: string, record: CommitRecord)
    requires SerializeCommit(record).Some?
    ensures ParseCommit(sha, SerializeCommit(record).value)
         == if !DotText(record.author.name) then Failure(UnsupportedIdentity("author"))
            else if !DotText(record.committer.name) then Failure(UnsupportedIdentity("committer"))
            else Success(CommitOf(sha, record))
  {
    var author, committer := IdentityText(record.author), IdentityText(record.committer);
    var ls := HeaderLines(record.tree, record.parent, author, committer);
    SerializedHeaderLines(record);
    ParseOfBlock(sha, ls, record.message);
    ParseOfHeaderLines(sha, record.tree, record.parent, author, committer, record.message);
    PrintedIdentityParses(record.author);
    PrintedIdentityParses(record.committer);
  }

  lemma PrintedIdentityParses(id: Identity)
    requires Printable(id)
    ensures ParseIdentity(IdentityText(id)) == if DotText(id.name) then Some(id) else None
  {
    if DotText(id.name) {
      ParseIdentityExact(IdentityText(id), id);
    } else if ParseIdentity(IdentityText(id)).Some? {
      var other := ParseIdentity(IdentityText(id)).value;
      ParseIdentityExact(IdentityText(id), other);
      TextDeterminesIdentity(id, other);
      assert false;
    }
  }

  predicate SafeTail(id: Identity) {
    NoAngles(id.email) && AllDigits(id.timestamp) && IsTimezone(id.timezone)
  }

  lemma TailDeterminesEmail(a: Identity, b: Identity)
    requires IdentityTail(a) == IdentityTail(b) && SafeTail(a) && SafeTail(b)
    ensures a.email == b.email
    ensures " " + a.timestamp + " " + a.timezone == " " + b.timestamp + " " + b.timezone
  {
    TailSplits(a);
    TailSplits(b);
  }

  lemma NumbersSplit(timestamp: string, timezone: string)
    requires |timezone| == 5
    ensures var x := " " + timestamp + " " + timezone;
            && |x| == |timestamp| + 7
            && x[1..|x| - 6] == timestamp && x[|x| - 5..] == timezone
  {
  }

  /** Two identities with safe emails and numbers that print alike have the same name. */
  lemma TextDeterminesIdentity(a: Identity, b: Identity)
    requires IdentityText(a) == IdentityText(b) && SafeTail(a) && SafeTail(b)
    ensures a == b
  {
    TailHasNoOpenAngle(a);
    TailHasNoOpenAngle(b);
    IdentitySplits(a);
    IdentitySplits(b);
    TailDeterminesEmail(a, b);
    NumbersSplit(a.timestamp, a.timezone);
    NumbersSplit(b.timestamp, b.timezone);
  }

  predicate HasFields(raw: string) {
    BlankLine(raw).Some? && Fields(Lines(raw[..BlankLine(raw).value])).Some?
  }

  /** The header fields of a commit text, in order. */
  function FieldsOf(raw: string): seq<Field>
    requires HasFields(raw)
  {
    Fields(Lines(raw[..BlankLine(raw).value])).value
  }

  /** The header names of a commit text, in order. */
  function HeaderOrder(raw: string): seq<string>
    requires HasFields(raw)
  {
    Names(FieldsOf(raw))
  }

  function Names(fields: seq<Field>): seq<string> {
    seq(|fields|, i requires 0 <= i < |fields| => fields[i].name)
  }

  predicate CanonicalOrder(names: seq<string>) {
    names == ["tree", "author", "committer"] || names == ["tree", "parent", "author", "committer"]
  }

  predicate Rewritable(commit: GitCommit) {
    && (commit.parents != [] ==> IsOid(commit.parents[0]))
    && Printable(commit.author) && Printable(commit.committer)
  }

  /**
   Printing a parsed commit is accepted exactly for an object-id parent and printable
   identities, and gives the same text back exactly when the headers stood in Git's order.
   */
  lemma SerializeParsed(sha: string, raw: string)
    requires ParseCommit(sha, raw).Success?
    ensures var commit := ParseCommit(sha, raw).value;
            && (SerializeCommit(RecordOf(commit)).Some? <==> Rewritable(commit))
            && (Rewritable(commit) ==>
                  (SerializeCommit(RecordOf(commit)).value == raw <==> CanonicalOrder(HeaderOrder(raw))))
  {
    var commit := ParseCommit(sha, raw).value;
    ParsedText(sha, raw);
    if Rewritable(commit) {
      if CanonicalOrder(HeaderOrder(raw)) {
        CanonicalTextReprints(sha, raw);
      } else if SerializeCommit(RecordOf(commit)).value == raw {
        ReprintedTextIsCanonical(RecordOf(commit));
        assert false;
      }
    }
  }

  lemma BuiltCommit(
    sha: string, parents: seq<string>, authors: seq<string>, committers: seq<string>, trees: seq<string>,
    message: string)
    requires BuildCommit(sha, parents, authors, committers, trees, message).Success?
    ensures var commit := BuildCommit(sha, parents, authors, committers, trees, message).value;
            && IsOid(commit.tree) && commit.sha == sha && commit.message == message
            && commit.parents == parents && |parents| <= 1
            && trees == [commit.tree]
            && authors == [IdentityText(commit.author)] && DotText(commit.author.name)
            && committers == [IdentityText(commit.committer)] && DotText(commit.committer.name)
            && Lacks(commit.author.email, '<') && Lacks(commit.committer.email, '<')
  {
    var commit := BuildCommit(sha, parents, authors, committers, trees, message).value;
    ParseIdentityExact(authors[0], commit.author);
    ParseIdentityExact(committers[0], commit.committer);
  }

  lemma BlankLineSplits(raw: string)
    requires BlankLine(raw).Some?
    ensures var separator := BlankLine(raw).value;
            raw == raw[..separator] + "\n\n" + raw[separator + 2..]
  {
    var separator := BlankLine(raw).value;
    assert raw[separator..separator + 2] == "\n\n";
    assert raw == raw[..separator] + raw[separator..separator + 2] + raw[separator + 2..];
  }

  /** What a successful parse says about the raw text. */
  lemma ParsedText(sha: string, raw: string)
    requires ParseCommit(sha, raw).Success?
    ensures HasFields(raw)
    ensures var commit := ParseCommit(sha, raw).value;
            && IsOid(commit.tree) && commit.sha == sha && |commit.parents| <= 1
            && raw == raw[..BlankLine(raw).value] + "\n\n" + commit.message
            && Values(FieldsOf(raw), "tree") == [commit.tree]
            && Values(FieldsOf(raw), "parent") == commit.parents
            && Values(FieldsOf(raw), "author") == [IdentityText(commit.author)]
            && Values(FieldsOf(raw), "committer") == [IdentityText(commit.committer)]
            && DotText(commit.author.name) && DotText(commit.committer.name)
  {
    BlankLineSplits(raw);
    var fields := FieldsOf(raw);
    BuiltCommit(sha, Values(fields, "parent"), Values(fields, "author"), Values(fields, "committer"),
                Values(fields, "tree"), raw[BlankLine(raw).value + 2..]);
  }

  lemma CanonicalTextReprints(sha: string, raw: string)
    requires ParseCommit(sha, raw).Success? && Rewritable(ParseCommit(sha, raw).value)
    requires CanonicalOrder(HeaderOrder(raw))
    ensures SerializeCommit(RecordOf(ParseCommit(sha, raw).value)) == Some(raw)
  {
    ParsedText(sha, raw);
    var commit := ParseCommit(sha, raw).value;
    var record := RecordOf(commit);
    var separator := BlankLine(raw).value;
    var author, committer := IdentityText(commit.author), IdentityText(commit.committer);
    CanonicalHeaders(Lines(raw[..separator]), commit.tree, record.parent, author, committer);
    JoinedMessage(HeaderLines(commit.tree, record.parent, author, committer), commit.message);
    JoinLines(raw[..separator]);
  }

  lemma ReprintedTextIsCanonical(record: CommitRecord)
    requires SerializeCommit(record).Some?
    ensures var raw := SerializeCommit(record).value;
            && HasFields(raw)
            && CanonicalOrder(HeaderOrder(raw))
  {
    var author, committer := IdentityText(record.author), IdentityText(record.committer);
    var ls := HeaderLines(record.tree, record.parent, author, committer);
    SerializedHeaderLines(record);
    JoinedMessage(ls, record.message);
    BlankLineAfterHeaders(ls, record.message);
    LinesOfJoined(ls);
    FieldsOfHeaderLines(record.tree, record.parent, author, committer);
    var raw := SerializeCommit(record).value;
    if record.parent.Some? {
      assert HeaderOrder(raw) == ["tree", "parent", "author", "committer"];
    } else {
      assert HeaderOrder(raw) == ["tree", "author", "committer"];
    }
  }

  /** Headers in Git's order, with the given values, are the printer's lines. */
  lemma CanonicalHeaders(
    headers: seq<string>, tree: string, parent: Option<string>, author: string, committer: string)
    requires Fields(headers).Some?
    requires CanonicalOrder(Names(Fields(headers).value))
    requires var fields := Fields(headers).value;
             && Values(fields, "tree") == [tree]
             && Values(fields, "parent") == (if parent.Some? then [parent.value] else [])
             && Values(fields, "author") == [author]
             && Values(fields, "committer") == [committer]
    ensures headers == HeaderLines(tree, parent, author, committer)
  {
    hide HeaderLines, HeaderFields;
    var fields := Fields(headers).value;
    CanonicalFields(fields, tree, parent, author, committer);
    FieldsSpell(headers);
    HeaderLinesSpell(tree, parent, author, committer);
    assert headers == Spelled(fields);
  }

  lemma CanonicalFields(
    fields: seq<Field>, tree: string, parent: Option<string>, author: string, committer: string)
    requires CanonicalOrder(Names(fields))
    requires Values(fields, "tree") == [tree]
    requires Values(fields, "parent") == (if parent.Some? then [parent.value] else [])
    requires Values(fields, "author") == [author]
    requires Values(fields, "committer") == [committer]
    ensures fields == HeaderFields(tree, parent, author, committer)
  {
    var names := Names(fields);
    assert forall i | 0 <= i < |fields| :: fields[i] == Field(names[i], fields[i].value);
    if |names| == 3 {
      assert fields == HeaderFields(fields[0].value, None, fields[1].value, fields[2].value);
      ValuesOfHeaderFields(fields[0].value, None, fields[1].value, fields[2].value);
    } else {
      assert fields == HeaderFields(fields[0].value, Some(fields[1].value), fields[2].value, fields[3].value);
      ValuesOfHeaderFields(fields[0].value, Some(fields[1].value), fields[2].value, fields[3].value);
    }
  }

  lemma {:induction false} FieldsSpell(headers: seq<string>)
    requires Fields(headers).Some?
    ensures |Fields(headers).value| == |headers|
    ensures forall i | 0 <= i < |headers| ::
              headers[i] == Fields(headers).value[i].name + " " + Fields(headers).value[i].value
  {
    if headers != [] {
      var front := headers[..|headers| - 1];
      FieldsSpell(front);
      var last := headers[|headers| - 1];
      var space := FirstIndex(last, ' ').value;
      assert last == last[..space] + " " + last[space + 1..];
      forall i | 0 <= i < |headers|
        ensures headers[i] == Fields(headers).value[i].name + " " + Fields(headers).value[i].value
      {
        if i < |front| {
          assert front[i] == headers[i];
        }
      }
    }
  }

  // ------------------------------------------------------- the accepted texts

  /** One header line: a name without spaces, one space, a value. */
  predicate IsHeader(f: Field) {
    f.name != "" && Lacks(f.name, ' ') && Lacks(f.name, '\n') && Lacks(f.value, '\n')
  }

  /** The text spells these headers, a blank line, and this message. */
  predicate Spells(raw: string, fields: seq<Field>, message: string) {
    && fields != [] && (forall f | f in fields :: IsHeader(f))
    && raw == Joined(Spelled(fields)) + "\n\n" + message
  }

  /** The value of a header that stands there once. */
  predicate Once(fields: seq<Field>, name: string, value: string) {
    exists i :: 0 <= i < |fields| && fields[i] == Field(name, value)
                && forall j | 0 <= j < |fields| && fields[j].name == name :: j == i
  }

  lemma {:induction false} ValuesOnce(fields: seq<Field>, name: string, value: string)
    ensures Values(fields, name) == [value] <==> Once(fields, name, value)
  {
    if fields != [] {
      var front, last := fields[..|fields| - 1], fields[|fields| - 1];
      ValuesOnce(front, name, value);
      ValuesNeedAField(front, name);
      OnceAppended(front, last, name, value);
      assert fields == front + [last];
      hide Once;
      if last.name == name {
        var earlier := Values(front, name);
        assert Values(fields, name) == earlier + [last.value];
        assert (earlier + [last.value])[|earlier|] == last.value;
        assert earlier + [last.value] == [value] <==> earlier == [] && last.value == value;
      }
    }
  }

  lemma OnceAppended(front: seq<Field>, last: Field, name: string, value: string)
    ensures Once(front + [last], name, value)
       <==> if last.name == name then last.value == value && forall i | 0 <= i < |front| :: front[i].name != name
            else Once(front, name, value)
  {
    var fields := front + [last];
    if last.name == name {
      assert fields[|front|] == last;
      if forall i | 0 <= i < |front| :: front[i].name != name {
        assert forall j | 0 <= j < |fields| && fields[j].name == name :: j == |front|;
      }
      if Once(fields, name, value) {
        forall i | 0 <= i < |front|
          ensures front[i].name != name
        {
          assert fields[i] == front[i];
        }
      }
    } else {
      if Once(front, name, value) {
        var i :| 0 <= i < |front| && front[i] == Field(name, value)
                 && forall j | 0 <= j < |front| && front[j].name == name :: j == i;
        assert fields[i] == front[i];
        assert forall j | 0 <= j < |fields| && fields[j].name == name :: j == i;
      }
      if Once(fields, name, value) {
        var i :| 0 <= i < |fields| && fields[i] == Field(name, value)
                 && forall j | 0 <= j < |fields| && fields[j].name == name :: j == i;
        assert front[i] == Field(name, value);
        forall j | 0 <= j < |front| && front[j].name == name
          ensures j == i
        {
          assert fields[j] == front[j];
        }
      }
    }
  }

  /** A header block read back: its lines are the headers spelled. */
  lemma SpelledBlock(raw: string, fields: seq<Field>, message: string)
    requires Spells(raw, fields, message)
    ensures BlankLine(raw).Some? && Lines(raw[..BlankLine(raw).value]) == Spelled(fields)
    ensures raw[BlankLine(raw).value + 2..] == message
    ensures Fields(Spelled(fields)) == Some(fields)
    ensures forall h | h in Spelled(fields) :: !([' '] <= h)
  {
    hide Joined, Lines, BlankLine, Fields;
    var ls := Spelled(fields);
    forall l | l in ls
      ensures HeaderLine(l) && !([' '] <= l)
    {
      var i :| 0 <= i < |ls| && ls[i] == l;
      assert fields[i] in fields && l == fields[i].name + " " + fields[i].value;
      assert l[0] == fields[i].name[0];
    }
    BlankLineAfterHeaders(ls, message);
    LinesOfJoined(ls);
    FieldsOfSpelled(fields);
  }

  /** The same the other way: a text whose header block splits spells its headers. */
  lemma BlockSpells(raw: string)
    requires HasFields(raw)
    ensures Spells(raw, FieldsOf(raw), raw[BlankLine(raw).value + 2..])
  {
    hide Joined, Lines, BlankLine, Fields;
    BlankLineSplits(raw);
    var headers := Lines(raw[..BlankLine(raw).value]);
    FieldsSpell(headers);
    JoinLines(raw[..BlankLine(raw).value]);
    assert headers == Spelled(FieldsOf(raw));
    forall f | f in FieldsOf(raw)
      ensures IsHeader(f)
    {
      var i :| 0 <= i < |headers| && FieldsOf(raw)[i] == f;
      assert headers[i] in headers;
      SplitIsHeader(headers, i);
    }
  }

  lemma LacksInParts(s: string, k: nat, c: char)
    requires k <= |s|
    ensures (forall i | 0 <= i < k :: s[i] != c) ==> Lacks(s[..k], c)
    ensures Lacks(s, c) ==> Lacks(s[..k], c) && Lacks(s[k..], c)
  {
  }

  lemma {:induction false} SplitIsHeader(headers: seq<string>, i: nat)
    requires Fields(headers).Some? && i < |headers| && Lacks(headers[i], '\n')
    ensures |Fields(headers).value| == |headers| && IsHeader(Fields(headers).value[i])
  {
    FieldsSpell(headers);
    var front := headers[..|headers| - 1];
    if i < |front| {
      assert front[i] == headers[i];
      SplitIsHeader(front, i);
    } else {
      var h := headers[i];
      var space := FirstIndex(h, ' ').value;
      assert Fields(headers).value[i] == Field(h[..space], h[space + 1..]);
      LacksInParts(h, space, ' ');
      LacksInParts(h, space, '\n');
      LacksInParts(h, space + 1, '\n');
    }
  }

  /** The headers of a commit: one tree, one author, one committer, at most one parent, no other. */
  ghost predicate CommitHeaders(fields: seq<Field>, commit: GitCommit) {
    && (forall f | f in fields :: f.name in ["tree", "parent", "author", "committer"])
    && Once(fields, "tree", commit.tree)
    && (if commit.parents == [] then forall f | f in fields :: f.name != "parent"
        else |commit.parents| == 1 && Once(fields, "parent", commit.parents[0]))
    && (exists author :: Once(fields, "author", author) && MatchesIdentity(author, commit.author))
    && (exists committer :: Once(fields, "committer", committer) && MatchesIdentity(committer, commit.committer))
  }

  /**
   A text parses as a commit exactly if it spells headers, a blank line and the commit's
   message, and the headers are the commit's: tree, author and committer once each, its
   parent if it has one, in any order, and nothing else.
   */
  lemma ParseCommitExactly(sha: string, raw: string, commit: GitCommit)
    ensures ParseCommit(sha, raw) == Success(commit)
       <==> && commit.sha == sha && IsOid(commit.tree)
            && exists fields :: Spells(raw, fields, commit.message) && CommitHeaders(fields, commit)
  {
    hide Spells, CommitHeaders, ParseCommit, IsOid;
    if ParseCommit(sha, raw) == Success(commit) {
      ParsedText(sha, raw);
      BlockSpells(raw);
      MessageAfterBlank(sha, raw);
      ParsedHeaders(sha, raw, commit);
    }
    if commit.sha == sha && IsOid(commit.tree)
       && exists fields :: Spells(raw, fields, commit.message) && CommitHeaders(fields, commit) {
      var fields :| Spells(raw, fields, commit.message) && CommitHeaders(fields, commit);
      SpelledBlock(raw, fields, commit.message);
      HeadersBuild(sha, fields, commit);
      BlockParses(sha, raw, fields, commit.message);
    }
  }

  lemma MessageAfterBlank(sha: string, raw: string)
    requires ParseCommit(sha, raw).Success?
    ensures BlankLine(raw).Some? && raw[BlankLine(raw).value + 2..] == ParseCommit(sha, raw).value.message
  {
    ParsedText(sha, raw);
    BlankLineSplits(raw);
    var separator := BlankLine(raw).value;
    assert (raw[..separator] + "\n\n" + ParseCommit(sha, raw).value.message)[separator + 2..]
           == ParseCommit(sha, raw).value.message;
  }

  lemma BlockParses(sha: string, raw: string, fields: seq<Field>, message: string)
    requires BlankLine(raw).Some? && Lines(raw[..BlankLine(raw).value]) == Spelled(fields)
    requires raw[BlankLine(raw).value + 2..] == message
    requires Fields(Spelled(fields)) == Some(fields) && forall h | h in Spelled(fields) :: !([' '] <= h)
    requires forall f | f in fields :: KnownHeader(f.name)
    ensures ParseCommit(sha, raw)
         == BuildCommit(sha, Values(fields, "parent"), Values(fields, "author"), Values(fields, "committer"),
                        Values(fields, "tree"), message)
  {
    hide BuildCommit, KnownHeader, Fields, Values, Lines, BlankLine;
    var headers := Spelled(fields);
    assert forall i | 0 <= i < |headers| :: headers[i] in headers;
    assert forall i | 0 <= i < |fields| :: fields[i] in fields;
  }

  lemma ParsedHeaders(sha: string, raw: string, commit: GitCommit)
    requires ParseCommit(sha, raw) == Success(commit) && HasFields(raw)
    ensures CommitHeaders(FieldsOf(raw), commit) && commit.sha == sha && IsOid(commit.tree)
  {
    hide Lines, BlankLine, IdentityText;
    var fields := FieldsOf(raw);
    ParsedText(sha, raw);
    OnlyKnownParsed(sha, raw);
    ValuesOnce(fields, "tree", commit.tree);
    ValuesNeedAField(fields, "parent");
    if commit.parents != [] {
      assert commit.parents == [commit.parents[0]];
      ValuesOnce(fields, "parent", commit.parents[0]);
    }
    ParsedIdentities(sha, raw, commit);
    ValuesOnce(fields, "author", IdentityText(commit.author));
    ValuesOnce(fields, "committer", IdentityText(commit.committer));
  }

  lemma OnlyKnownParsed(sha: string, raw: string)
    requires ParseCommit(sha, raw).Success? && HasFields(raw)
    ensures forall f | f in FieldsOf(raw) :: f.name in ["tree", "parent", "author", "committer"]
  {
    hide Lines, BlankLine, Fields, BuildCommit, Values;
    var fields := FieldsOf(raw);
    forall f | f in fields
      ensures f.name in ["tree", "parent", "author", "committer"]
    {
      var i :| 0 <= i < |fields| && fields[i] == f;
      assert KnownHeader(fields[i].name);
    }
  }

  lemma ParsedIdentities(sha: string, raw: string, commit: GitCommit)
    requires ParseCommit(sha, raw) == Success(commit) && HasFields(raw)
    ensures MatchesIdentity(IdentityText(commit.author), commit.author)
    ensures MatchesIdentity(IdentityText(commit.committer), commit.committer)
  {
    hide Lines, BlankLine, Fields, Values, MatchesIdentity, IdentityText;
    var fields := FieldsOf(raw);
    var authors, committers := Values(fields, "author"), Values(fields, "committer");
    ParseIdentityExact(authors[0], commit.author);
    ParseIdentityExact(committers[0], commit.committer);
    MatchedText(authors[0], commit.author);
    MatchedText(committers[0], commit.committer);
  }

  lemma HeadersBuild(sha: string, fields: seq<Field>, commit: GitCommit)
    requires CommitHeaders(fields, commit) && commit.sha == sha && IsOid(commit.tree)
    ensures BuildCommit(sha, Values(fields, "parent"), Values(fields, "author"), Values(fields, "committer"),
                        Values(fields, "tree"), commit.message) == Success(commit)
    ensures forall f | f in fields :: KnownHeader(f.name)
  {
    hide MatchesIdentity, Once, IsOid, Values, ParseIdentity;
    ValuesOnce(fields, "tree", commit.tree);
    ValuesNeedAField(fields, "parent");
    assert forall i | 0 <= i < |fields| :: fields[i] in fields;
    if commit.parents != [] {
      ValuesOnce(fields, "parent", commit.parents[0]);
      assert commit.parents == [commit.parents[0]];
    }
    IdentityOnce(fields, "author", commit.author);
    IdentityOnce(fields, "committer", commit.committer);
  }

  lemma IdentityOnce(fields: seq<Field>, name: string, id: Identity)
    requires exists text :: Once(fields, name, text) && MatchesIdentity(text, id)
    ensures |Values(fields, name)| == 1 && ParseIdentity(Values(fields, name)[0]) == Some(id)
  {
    hide Once, Values;
    var text :| Once(fields, name, text) && MatchesIdentity(text, id);
    ValuesOnce(fields, name, text);
    ParseIdentityExact(text, id);
  }

  predicate NoneOf(s: string, chars: string) {
    forall c | c in s :: c !in chars
  }

  predicate OnlyDigits(s: string) {
    s != "" && forall c | c in s :: c in "0123456789"
  }

  /** A sign and four digits. */
  predicate SpelledTimezone(s: string) {
    |s| == 5 && s[0] in "+-" && OnlyDigits(s[1..])
  }

  lemma DigitsExactly(s: string)
    ensures OnlyDigits(s) <==> s != "" && AllDigits(s)
  {
    forall c: char
      ensures IsDigit(c) <==> c in "0123456789"
    {
      DigitExactly(c);
    }
    assert forall i | 0 <= i < |s| :: s[i] in s;
  }

  lemma DigitExactly(c: char)
    ensures IsDigit(c) <==> c in "0123456789"
  {
    var digits := "0123456789";
    assert |digits| == 10;
    if IsDigit(c) {
      assert digits[c as int - '0' as int] == c;
    }
  }

  lemma TimezoneExactly(s: string)
    ensures SpelledTimezone(s) <==> IsTimezone(s)
  {
    if |s| == 5 {
      DigitsExactly(s[1..]);
    }
  }

  /** A header value is read as an identity exactly if it spells it: a name without line ends, and so on. */
  lemma IdentityExactly(value: string, id: Identity)
    ensures ParseIdentity(value) == Some(id)
       <==> && value == id.name + " <" + id.email + "> " + id.timestamp + " " + id.timezone
            && NoneOf(id.name, "\n\r\U{2028}\U{2029}") && NoneOf(id.email, "<>")
            && OnlyDigits(id.timestamp) && SpelledTimezone(id.timezone)
  {
    hide ParseIdentity, OnlyDigits, SpelledTimezone, AllDigits, IsTimezone, DotText, NoAngles, NoneOf;
    ParseIdentityExact(value, id);
    DigitsExactly(id.timestamp);
    TimezoneExactly(id.timezone);
    DotTextExactly(id.name);
    NoAnglesExactly(id.email);
  }

  lemma DotTextExactly(s: string)
    ensures DotText(s) <==> NoneOf(s, "\n\r\U{2028}\U{2029}")
  {
    assert forall i | 0 <= i < |s| :: s[i] in s;
  }

  lemma NoAnglesExactly(s: string)
    ensures NoAngles(s) <==> NoneOf(s, "<>")
  {
    assert forall i | 0 <= i < |s| :: s[i] in s;
  }

  /** The printer accepts an identity exactly if it holds nothing that would end its field early. */
  predicate SafeIdentity(id: Identity) {
    && NoneOf(id.name, "\0\n\r") && NoneOf(id.email, "\0\n\r<>")
    && OnlyDigits(id.timestamp) && SpelledTimezone(id.timezone)
  }

  lemma PrintableExactly(id: Identity)
    ensures FormatIdentity(id).Some? <==> SafeIdentity(id)
    ensures FormatIdentity(id).Some? ==>
              FormatIdentity(id).value == id.name + " <" + id.email + "> " + id.timestamp + " " + id.timezone
  {
    DigitsExactly(id.timestamp);
    TimezoneExactly(id.timezone);
    assert forall i | 0 <= i < |id.name| :: id.name[i] in id.name;
    assert forall i | 0 <= i < |id.email| :: id.email[i] in id.email;
    hide OnlyDigits, SpelledTimezone, AllDigits, IsTimezone;
  }

  /** What the printer writes, character by character, and exactly when. */
  lemma SerializeExactly(record: CommitRecord)
    ensures SerializeCommit(record).Some?
       <==> && IsOid(record.tree) && (record.parent.Some? ==> IsOid(record.parent.value))
            && SafeIdentity(record.author) && SafeIdentity(record.committer)
    ensures SerializeCommit(record).Some? ==>
              SerializeCommit(record).value
              == "tree " + record.tree + "\n"
                 + (if record.parent.Some? then "parent " + record.parent.value + "\n" else "")
                 + "author " + record.author.name + " <" + record.author.email + "> " + record.author.timestamp + " "
                 + record.author.timezone + "\n"
                 + "committer " + record.committer.name + " <" + record.committer.email + "> "
                 + record.committer.timestamp + " " + record.committer.timezone + "\n\n" + record.message
  {
    PrintableExactly(record.author);
    PrintableExactly(record.committer);
    if SerializeCommit(record).Some? {
      var author, committer := FormatIdentity(record.author).value, FormatIdentity(record.committer).value;
      HeadersJoined(record.tree, record.parent, author, committer, record.message);
      FlatText(record.author, record.committer, record.tree, record.parent, record.message);
    }
    hide SafeIdentity, FormatIdentity, IsOid, Joined;
  }

  lemma HeadersJoined(tree: string, parent: Option<string>, author: string, committer: string, message: string)
    ensures Joined(HeaderLines(tree, parent, author, committer) + ["", message])
         == "tree " + tree + "\n" + (if parent.Some? then "parent " + parent.value + "\n" else "")
            + ("author " + author) + "\n" + ("committer " + committer) + "\n\n" + message
  {
    var ls := HeaderLines(tree, parent, author, committer);
    JoinedMessage(ls, message);
    var last := ["author " + author, "committer " + committer];
    assert Joined(last) == "author " + author + "\n" + ("committer " + committer) by {
      assert last[1..] == ["committer " + committer];
    }
    if parent.Some? {
      assert ls == ["tree " + tree, "parent " + parent.value] + last;
      assert ls[1..] == ["parent " + parent.value] + last && ls[1..][1..] == last;
    } else {
      assert ls == ["tree " + tree] + last && ls[1..] == last;
    }
  }

  lemma FlatText(author: Identity, committer: Identity, tree: string, parent: Option<string>, message: string)
    ensures "tree " + tree + "\n" + (if parent.Some? then "parent " + parent.value + "\n" else "")
            + ("author " + (author.name + " <" + author.email + "> " + author.timestamp + " " + author.timezone)) + "\n"
            + ("committer " + (committer.name + " <" + committer.email + "> " + committer.timestamp + " "
                               + committer.timezone)) + "\n\n" + message
         == "tree " + tree + "\n" + (if parent.Some? then "parent " + parent.value + "\n" else "")
            + "author " + author.name + " <" + author.email + "> " + author.timestamp + " " + author.timezone + "\n"
            + "committer " + committer.name + " <" + committer.email + "> " + committer.timestamp + " "
            + committer.timezone + "\n\n" + message
  {
  }
}
