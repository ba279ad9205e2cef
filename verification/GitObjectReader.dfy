/**
 V18MigrationGitObjectReader.ts: reading objects from one `git cat-file --batch` stream that
 arrives in arbitrary chunks. A byte is a character here; header lines only matter when
 they are plain ASCII.
 */
module GitObjectReader {
  import opened Wrappers
  import opened Text

  const MAX_SAFE_INTEGER: nat := 9_007_199_254_740_991

  datatype ReadError =
    | Closing
    | InvalidOid
    | Missing
    | BadHeader
    | WrongOid
    | InvalidSize
    | MissingDelimiter
    | WrongType
    | UnexpectedEnd

  // ------------------------------------------------------------------- header

  datatype Header = Header(oid: string, objectType: string, size: string)

  predicate IsTypeName(s: string) {
    s != "" && forall i | 0 <= i < |s| :: 'a' <= s[i] <= 'z'
  }

  /** The groups of the header pattern. */
  function ParseHeader(line: string): Option<Header> {
    match FirstIndex(line, ' ')
    case None => None
    case Some(i) =>
      match FirstIndex(line[i + 1..], ' ')
      case None => None
      case Some(j) =>
        var h := Header(line[..i], line[i + 1..][..j], line[i + 1..][j + 1..]);
        if IsOid(h.oid) && IsTypeName(h.objectType) && h.size != "" && AllDigits(h.size) then Some(h) else None
  }

  predicate MatchesHeader(line: string, h: Header) {
    && line == h.oid + " " + h.objectType + " " + h.size
    && IsOid(h.oid) && IsTypeName(h.objectType) && h.size != "" && AllDigits(h.size)
  }

  lemma FirstIndexOfPrefix(s: string, rest: string, c: char)
    ensures FirstIndex(s, c).Some? ==> FirstIndex(s + rest, c) == FirstIndex(s, c)
  {
    if FirstIndex(s, c).Some? {
      assert forall k | 0 <= k <= FirstIndex(s, c).value :: (s + rest)[k] == s[k];
      FirstIndexUnique(s + rest, c, FirstIndex(s, c).value);
    }
  }

  lemma FirstIndexUnique(s: string, c: char, i: nat)
    requires i < |s| && s[i] == c && forall k | 0 <= k < i :: s[k] != c
    ensures FirstIndex(s, c) == Some(i)
  {
  }

  /** The parse is exactly a match of the pattern, and there is only one. */
  lemma ParseHeaderExact(line: string, h: Header)
    ensures ParseHeader(line) == Some(h) <==> MatchesHeader(line, h)
  {
    if MatchesHeader(line, h) {
      MatchedHeaderIsParsed(line, h);
    }
    if ParseHeader(line) == Some(h) {
      ParsedHeaderText(line, h);
    }
  }

  lemma MatchedHeaderIsParsed(line: string, h: Header)
    requires MatchesHeader(line, h)
    ensures ParseHeader(line) == Some(h)
  {
    FirstWord(h.oid, h.objectType + " " + h.size);
    FirstWord(h.objectType, h.size);
    assert line == h.oid + " " + (h.objectType + " " + h.size);
    hide IsOid, IsTypeName, AllDigits, FirstIndex;
  }

  lemma FirstWord(word: string, rest: string)
    requires Lacks(word, ' ')
    ensures FirstIndex(word + " " + rest, ' ') == Some(|word|)
    ensures (word + " " + rest)[..|word|] == word && (word + " " + rest)[|word| + 1..] == rest
  {
    var s := word + " " + rest;
    assert forall k | 0 <= k < |word| :: s[k] == word[k];
    FirstIndexUnique(s, ' ', |word|);
  }

  lemma ParsedHeaderText(line: string, h: Header)
    requires ParseHeader(line) == Some(h)
    ensures line == h.oid + " " + h.objectType + " " + h.size
  {
    hide IsOid, IsTypeName, AllDigits;
    var i := FirstIndex(line, ' ').value;
    var rest := line[i + 1..];
    var j := FirstIndex(rest, ' ').value;
    CutAtSpace(line, i);
    CutAtSpace(rest, j);
    Rejoin(line[..i], rest[..j], rest[j + 1..]);
  }

  lemma CutAtSpace(s: string, i: nat)
    requires i < |s| && s[i] == ' '
    ensures s == s[..i] + (" " + s[i + 1..])
  {
  }

  lemma Rejoin(a: string, b: string, c: string)
    ensures a + (" " + (b + (" " + c))) == a + " " + b + " " + c
  {
  }

  // ------------------------------------------------------------- whole stream

  datatype Reading = Reading(result: Result<string, ReadError>, rest: string)

  /** What one read makes of the whole remaining stream. */
  function ReadOne(stream: string, oid: string, expectedType: string): Reading {
    if !IsOid(oid) then Reading(Failure(InvalidOid), stream)
    else
      match FirstIndex(stream, '\n')
      case None => Reading(Failure(UnexpectedEnd), stream)
      case Some(i) => ReadAfterHeader(stream[..i], stream[i + 1..], oid, expectedType)
  }

  function ReadAfterHeader(line: string, rest: string, oid: string, expectedType: string): Reading {
    if line == oid + " missing" then Reading(Failure(Missing), rest)
    else
      match ParseHeader(line)
      case None => Reading(Failure(BadHeader), rest)
      case Some(h) =>
        if h.oid != oid then Reading(Failure(WrongOid), rest)
        else if Number(h.size) > MAX_SAFE_INTEGER then Reading(Failure(InvalidSize), rest)
        else ReadPayload(rest, Number(h.size), h.objectType == expectedType)
  }

  function ReadPayload(rest: string, size: nat, typeMatches: bool): Reading {
    if |rest| < size then Reading(Failure(UnexpectedEnd), rest)
    else if |rest| == size then Reading(Failure(UnexpectedEnd), "")
    else if rest[size] != '\n' then Reading(Failure(MissingDelimiter), rest[size + 1..])
    else if !typeMatches then Reading(Failure(WrongType), rest[size + 1..])
    else Reading(Success(rest[..size]), rest[size + 1..])
  }

  /** The object's header line, its payload, a newline, and the rest; the size may have leading zeros. */
  ghost predicate Holds(stream: string, oid: string, objectType: string, payload: string, rest: string) {
    exists size ::
      && size != "" && AllDigits(size) && Number(size) == |payload| <= 9_007_199_254_740_991
      && stream == oid + " " + objectType + " " + size + "\n" + payload + "\n" + rest
  }

  /** A read succeeds exactly on a response for its own object, of the expected type, that is all there. */
  lemma ReadSucceedsExactly(stream: string, oid: string, objectType: string, payload: string, rest: string)
    ensures ReadOne(stream, oid, objectType) == Reading(Success(payload), rest)
       <==> && IsOid(oid) && objectType != "" && (forall c | c in objectType :: 'a' <= c <= 'z')
            && Holds(stream, oid, objectType, payload, rest)
  {
    assert forall i | 0 <= i < |objectType| :: objectType[i] in objectType;
    if ReadOne(stream, oid, objectType) == Reading(Success(payload), rest) {
      SuccessHolds(stream, oid, objectType, payload, rest);
    }
    if IsOid(oid) && IsTypeName(objectType) && Holds(stream, oid, objectType, payload, rest) {
      var size :| && size != "" && AllDigits(size) && Number(size) == |payload| <= MAX_SAFE_INTEGER
                  && stream == oid + " " + objectType + " " + size + "\n" + payload + "\n" + rest;
      HeldIsRead(stream, oid, objectType, size, payload, rest);
    }
  }

  /** The payload read is what stands before a newline. */
  lemma PayloadExactly(tail: string, size: nat, typeMatches: bool, payload: string, rest: string)
    ensures ReadPayload(tail, size, typeMatches) == Reading(Success(payload), rest)
       <==> typeMatches && |payload| == size && tail == payload + "\n" + rest
  {
    if |tail| > size && tail[size] == '\n' {
      assert tail == tail[..size] + "\n" + tail[size + 1..];
    }
    if |payload| == size && tail == payload + "\n" + rest {
      assert tail[..size] == payload && tail[size] == '\n' && tail[size + 1..] == rest;
    }
  }

  lemma SuccessHolds(stream: string, oid: string, objectType: string, payload: string, rest: string)
    requires ReadOne(stream, oid, objectType) == Reading(Success(payload), rest)
    ensures IsOid(oid) && IsTypeName(objectType) && Holds(stream, oid, objectType, payload, rest)
  {
    hide IsOid, IsTypeName, Number, AllDigits, ParseHeader, FirstIndex, ReadPayload;
    var i := FirstIndex(stream, '\n').value;
    var line, tail := stream[..i], stream[i + 1..];
    var h := ParseHeader(line).value;
    ParseHeaderExact(line, h);
    PayloadExactly(tail, Number(h.size), h.objectType == objectType, payload, rest);
    Cut(stream, i);
    Paste(line, payload, rest);
  }

  lemma Cut(stream: string, i: nat)
    requires i < |stream| && stream[i] == '\n'
    ensures stream == stream[..i] + "\n" + stream[i + 1..]
  {
  }

  lemma Paste(line: string, payload: string, rest: string)
    ensures line + "\n" + (payload + "\n" + rest) == line + "\n" + payload + "\n" + rest
  {
  }

  lemma HeldIsRead(stream: string, oid: string, objectType: string, size: string, payload: string, rest: string)
    requires IsOid(oid) && IsTypeName(objectType) && size != "" && AllDigits(size)
    requires Number(size) == |payload| <= MAX_SAFE_INTEGER
    requires stream == oid + " " + objectType + " " + size + "\n" + payload + "\n" + rest
    ensures ReadOne(stream, oid, objectType) == Reading(Success(payload), rest)
  {
    hide IsOid, IsTypeName, Number, AllDigits, ParseHeader, FirstIndex, ReadPayload, Lacks;
    var line, tail := oid + " " + objectType + " " + size, payload + "\n" + rest;
    HeaderIsALine(oid, objectType, size);
    Paste(line, payload, rest);
    FirstLine(line, tail);
    ParseHeaderExact(line, Header(oid, objectType, size));
    NotMissing(oid, objectType, size);
    PayloadExactly(tail, |payload|, true, payload, rest);
  }

  lemma HeaderIsALine(oid: string, objectType: string, size: string)
    requires IsOid(oid) && IsTypeName(objectType) && AllDigits(size)
    ensures Lacks(oid + " " + objectType + " " + size, '\n')
  {
    assert Lacks(oid, '\n') && Lacks(objectType, '\n') && Lacks(size, '\n');
    var a := oid + " " + objectType;
    assert Lacks(a, '\n');
  }

  datatype Request = Request(oid: string, expectedType: string)

  /** A sequence of reads, each starting where the one before stopped. */
  function ReadAll(stream: string, requests: seq<Request>): (r: (seq<Result<string, ReadError>>, string))
    ensures |r.0| == |requests|
  {
    if requests == [] then ([], stream)
    else
      var front := ReadAll(stream, requests[..|requests| - 1]);
      var last := ReadOne(front.1, requests[|requests| - 1].oid, requests[|requests| - 1].expectedType);
      (front.0 + [last.result], last.rest)
  }

  // ---------------------------------------------------------------- responses

  /** What Git answers for one object id. */
  datatype Answer = Absent | Object(objectType: string, payload: string)

  predicate WellFormed(a: Answer) {
    a.Object? ==> IsTypeName(a.objectType) && |a.payload| <= MAX_SAFE_INTEGER
  }

  /** The batch protocol's response. */
  function Response(oid: string, a: Answer): string {
    match a
    case Absent => oid + " missing" + "\n"
    case Object(t, payload) => oid + " " + t + " " + Decimal(|payload|) + "\n" + payload + "\n"
  }

  function Expected(a: Answer, expectedType: string): Result<string, ReadError> {
    match a
    case Absent => Failure(Missing)
    case Object(t, payload) => if t == expectedType then Success(payload) else Failure(WrongType)
  }

  lemma FirstLine(line: string, rest: string)
    requires Lacks(line, '\n')
    ensures FirstIndex(line + "\n" + rest, '\n') == Some(|line|)
    ensures (line + "\n" + rest)[..|line|] == line && (line + "\n" + rest)[|line| + 1..] == rest
  {
    var s := line + "\n" + rest;
    assert forall k | 0 <= k < |line| :: s[k] == line[k];
    FirstIndexUnique(s, '\n', |line|);
  }

  /** A read of a response yields its payload or its error, and stops at the next response. */
  lemma ReadResponse(oid: string, a: Answer, expectedType: string, rest: string)
    requires IsOid(oid) && WellFormed(a)
    ensures ReadOne(Response(oid, a) + rest, oid, expectedType) == Reading(Expected(a, expectedType), rest)
  {
    match a {
      case Absent =>
        var line := oid + " missing";
        assert Response(oid, a) + rest == line + "\n" + rest;
        FirstLine(line, rest);
      case Object(t, payload) => ReadObjectResponse(oid, t, payload, expectedType, rest);
    }
  }

  lemma ReadObjectResponse(oid: string, t: string, payload: string, expectedType: string, rest: string)
    requires IsOid(oid) && WellFormed(Object(t, payload))
    ensures ReadOne(Response(oid, Object(t, payload)) + rest, oid, expectedType)
         == Reading(Expected(Object(t, payload), expectedType), rest)
  {
    assert MatchesHeader(oid + " " + t + " " + Decimal(|payload|), Header(oid, t, Decimal(|payload|)));
    hide IsOid, IsTypeName, Decimal, Lacks, ReadPayload, ParseHeader, MatchesHeader;
    var size := Decimal(|payload|);
    var line := oid + " " + t + " " + size;
    var tail := payload + ("\n" + rest);
    HeaderLine(oid, t, size);
    NumberOfDecimal(|payload|);
    NotMissing(oid, t, size);
    FirstLine(line, tail);
    PayloadRead(payload, rest, t == expectedType);
    ResponseText(line, payload, rest);
  }

  lemma HeaderLine(oid: string, t: string, size: string)
    requires MatchesHeader(oid + " " + t + " " + size, Header(oid, t, size))
    ensures Lacks(oid + " " + t + " " + size, '\n')
    ensures ParseHeader(oid + " " + t + " " + size) == Some(Header(oid, t, size))
  {
    ParseHeaderExact(oid + " " + t + " " + size, Header(oid, t, size));
    hide ParseHeader;
  }

  lemma PayloadRead(payload: string, rest: string, typeMatches: bool)
    ensures ReadPayload(payload + ("\n" + rest), |payload|, typeMatches)
         == Reading(if typeMatches then Success(payload) else Failure(WrongType), rest)
  {
    var tail := payload + ("\n" + rest);
    assert tail[..|payload|] == payload && tail[|payload| + 1..] == rest;
  }

  lemma ResponseText(line: string, payload: string, rest: string)
    ensures line + "\n" + payload + "\n" + rest == line + "\n" + (payload + ("\n" + rest))
  {
  }

  /** A header never reads as a missing answer. */
  lemma NotMissing(oid: string, objectType: string, size: string)
    requires size != "" && AllDigits(size)
    ensures oid + " " + objectType + " " + size != oid + " missing"
  {
    var a, b := oid + " " + objectType + " " + size, oid + " missing";
    assert a[|a| - 1] == size[|size| - 1];
    assert b[|b| - 1] == 'g';
  }

  function Responses(requests: seq<Request>, answers: seq<Answer>): string
    requires |requests| == |answers|
  {
    if requests == [] then ""
    else
      Responses(requests[..|requests| - 1], answers[..|answers| - 1])
      + Response(requests[|requests| - 1].oid, answers[|answers| - 1])
  }

  function ExpectedAll(requests: seq<Request>, answers: seq<Answer>): seq<Result<string, ReadError>>
    requires |requests| == |answers|
  {
    seq(|requests|, i requires 0 <= i < |requests| => Expected(answers[i], requests[i].expectedType))
  }

  /** Reads of consecutive responses yield exactly their answers, missing and mistyped ones included. */
  lemma {:induction false} ReadAllResponses(requests: seq<Request>, answers: seq<Answer>, rest: string)
    requires |requests| == |answers|
    requires forall i | 0 <= i < |requests| :: IsOid(requests[i].oid) && WellFormed(answers[i])
    ensures ReadAll(Responses(requests, answers) + rest, requests)
         == (ExpectedAll(requests, answers), rest)
  {
    hide IsOid, WellFormed, Response, Expected, ReadOne;
    if requests == [] {
      assert Responses(requests, answers) + rest == rest && ExpectedAll(requests, answers) == [];
    } else {
      var k := |requests| - 1;
      var tail := Response(requests[k].oid, answers[k]) + rest;
      assert Responses(requests, answers) + rest == Responses(requests[..k], answers[..k]) + tail;
      ReadAllResponses(requests[..k], answers[..k], tail);
      ReadResponse(requests[k].oid, answers[k], requests[k].expectedType, rest);
      assert ExpectedAll(requests, answers)
          == ExpectedAll(requests[..k], answers[..k]) + [Expected(answers[k], requests[k].expectedType)];
    }
  }

  // ------------------------------------------------------------------- chunks

  function Concat(chunks: seq<string>): string {
    if chunks == [] then "" else chunks[0] + Concat(chunks[1..])
  }

  lemma {:induction false} ConcatAppend(chunks: seq<string>, chunk: string)
    ensures Concat(chunks + [chunk]) == Concat(chunks) + chunk
  {
    if chunks == [] {
      assert chunks + [chunk] == [chunk];
      assert Concat([chunk]) == chunk + Concat([]);
    } else {
      ConcatAppend(chunks[1..], chunk);
      assert (chunks + [chunk])[1..] == chunks[1..] + [chunk];
    }
  }

  class ObjectReader {
    var chunks: seq<string>
    var bufferedBytes: int
    var closing: bool
    /** The chunks the process will still deliver. */
    var incoming: seq<string>

    ghost predicate Valid()
      reads this
    {
      bufferedBytes == |Concat(chunks)|
    }

    ghost function Buffered(): string
      reads this
    {
      Concat(chunks)
    }

    /** Everything still unread, however it is cut into chunks. */
    ghost function Stream(): string
      reads this
    {
      Concat(chunks) + Concat(incoming)
    }

    constructor (incoming: seq<string>)
      ensures Valid() && Stream() == Concat(incoming) && !closing
    {
      this.incoming := incoming;
      chunks, bufferedBytes, closing := [], 0, false;
    }

    /** `#readMore`; fails when the process has closed its output. */
    method ReadMore() returns (more: bool)
      requires Valid()
      modifies this
      ensures Valid() && Stream() == old(Stream()) && closing == old(closing)
      ensures more == (old(incoming) != [])
      ensures more ==> |incoming| == |old(incoming)| - 1
      ensures !more ==> incoming == [] && chunks == old(chunks)
    {
      if incoming == [] {
        return false;
      }
      var chunk := incoming[0];
      ConcatAppend(chunks, chunk);
      ghost var rest := Concat(incoming[1..]);
      assert Concat(chunks) + (chunk + rest) == (Concat(chunks) + chunk) + rest;
      chunks := chunks + [chunk];
      incoming := incoming[1..];
      bufferedBytes := bufferedBytes + |chunk|;
      more := true;
    }

    /** `#consume`: copies the next bytes out of the chunk queue. */
    method Consume(size: nat) returns (output: array<char>)
      requires Valid() && size <= |Buffered()|
      modifies this`chunks, this`bufferedBytes
      ensures Valid() && fresh(output)
      ensures output[..] == old(Buffered())[..size]
      ensures Buffered() == old(Buffered())[size..]
    {
      output := new char[size];
      var copied := 0;
      while copied < size
        invariant 0 <= copied <= size && fresh(output) && output.Length == size
        invariant Valid()
        invariant copied + |Concat(chunks)| == |old(Buffered())|
        invariant output[..copied] == old(Buffered())[..copied]
        invariant Concat(chunks) == old(Buffered())[copied..]
        decreases size - copied + |chunks|
      {
        var chunk := chunks[0];
        var length := if |chunk| < size - copied then |chunk| else size - copied;
        ghost var ahead := Concat(chunks);
        assert ahead == chunk + Concat(chunks[1..]);
        ghost var done := output[..copied];
        forall i | 0 <= i < length {
          output[copied + i] := chunk[i];
        }
        assert output[..copied] == done;
        assert output[..copied + length] == done + chunk[..length];
        assert chunk[..length] == ahead[..length];
        copied := copied + length;
        bufferedBytes := bufferedBytes - length;
        if length == |chunk| {
          chunks := chunks[1..];
        } else {
          chunks := [chunk[length..]] + chunks[1..];
        }
        assert Concat(chunks) == ahead[length..];
      }
      assert output[..] == output[..copied];
    }

    /** `#newlineOffset` */
    method NewlineOffset() returns (newline: int)
      ensures match FirstIndex(Buffered(), '\n')
              case None => newline == -1
              case Some(i) => newline == i
    {
      var offset := 0;
      for k := 0 to |chunks|
        invariant 0 <= offset <= |Buffered()|
        invariant Buffered()[offset..] == Concat(chunks[k..])
        invariant forall i | 0 <= i < offset :: Buffered()[i] != '\n'
      {
        ghost var whole := Buffered();
        assert chunks[k..][1..] == chunks[k + 1..];
        assert whole[offset..] == chunks[k] + Concat(chunks[k + 1..]);
        assert forall i | 0 <= i < |chunks[k]| :: whole[offset + i] == whole[offset..][i] == chunks[k][i];
        var index := FirstIndex(chunks[k], '\n');
        if index.Some? {
          FirstIndexUnique(whole, '\n', offset + index.value);
          return offset + index.value;
        }
        offset := offset + |chunks[k]|;
        assert forall i | 0 <= i < offset :: whole[i] != '\n';
        assert whole[offset..] == Concat(chunks[k + 1..]);
      }
      newline := -1;
    }

    /** `#readLine`: the bytes up to the next newline, which is taken as well. */
    method ReadLine() returns (line: Option<string>)
      requires Valid()
      modifies this
      ensures Valid() && closing == old(closing)
      ensures match FirstIndex(old(Stream()), '\n')
              case None => line == None && Stream() == old(Stream())
              case Some(i) => line == Some(old(Stream())[..i]) && Stream() == old(Stream())[i + 1..]
    {
      while true
        invariant Valid() && Stream() == old(Stream()) && closing == old(closing)
        decreases |incoming|
      {
        var newline := NewlineOffset();
        if newline >= 0 {
          var output := TakeLine(newline);
          return Some(output);
        }
        var more := ReadMore();
        if !more {
          assert Concat(incoming) == "" && Stream() == Buffered();
          return None;
        }
      }
    }

    /** Takes a buffered line and its newline. */
    method TakeLine(newline: nat) returns (line: string)
      requires Valid() && FirstIndex(Buffered(), '\n') == Some(newline)
      modifies this`chunks, this`bufferedBytes
      ensures Valid() && FirstIndex(old(Stream()), '\n') == Some(newline)
      ensures line == old(Stream())[..newline] && Stream() == old(Stream())[newline + 1..]
    {
      ghost var whole, buffered := Stream(), Buffered();
      FirstIndexOfPrefix(buffered, Concat(incoming), '\n');
      var output := Consume(newline);
      line := output[..];
      var delimiter := Consume(1);
      assert Buffered() == buffered[newline + 1..];
    }

    /** `#readBytes`: waits until enough bytes are buffered. */
    method ReadBytes(size: nat) returns (bytes: Option<string>)
      requires Valid()
      modifies this
      ensures Valid() && closing == old(closing)
      ensures bytes.Some? <==> size <= |old(Stream())|
      ensures bytes.Some? ==> bytes.value == old(Stream())[..size] && Stream() == old(Stream())[size..]
      ensures bytes.None? ==> Stream() == old(Stream())
    {
      while bufferedBytes < size
        invariant Valid() && Stream() == old(Stream()) && closing == old(closing)
        decreases |incoming|
      {
        var more := ReadMore();
        if !more {
          assert Concat(incoming) == "" && Stream() == Buffered();
          return None;
        }
      }
      ghost var whole := Stream();
      var output := Consume(size);
      assert output[..] == whole[..size] && Stream() == whole[size..];
      bytes := Some(output[..]);
    }

    /** Payload and delimiter, once the header is known. */
    method ReadPayloadBytes(size: nat, typeMatches: bool) returns (result: Result<string, ReadError>)
      requires Valid()
      modifies this
      ensures Valid() && closing == old(closing)
      ensures Reading(result, Stream()) == ReadPayload(old(Stream()), size, typeMatches)
    {
      ghost var whole := Stream();
      var bytes := ReadBytes(size);
      if bytes.None? {
        return Failure(UnexpectedEnd);
      }
      var delimiter := ReadBytes(1);
      if delimiter.None? {
        assert whole[size..] == "";
        return Failure(UnexpectedEnd);
      }
      assert whole[size..][..1] == [whole[size]] && whole[size..][1..] == whole[size + 1..];
      if delimiter.value[0] != '\n' {
        return Failure(MissingDelimiter);
      }
      if !typeMatches {
        return Failure(WrongType);
      }
      result := Success(bytes.value);
    }

    /**
     Reads one object. The result and the unread rest depend only on the concatenated
     stream, never on how it was cut into chunks.
     */
    method ReadObject(oid: string, expectedType: string) returns (result: Result<string, ReadError>)
      requires Valid()
      modifies this
      ensures Valid() && closing == old(closing)
      ensures closing ==> result == Failure(Closing) && Stream() == old(Stream())
      ensures !closing ==> Reading(result, Stream()) == ReadOne(old(Stream()), oid, expectedType)
    {
      hide IsOid;
      if closing {
        return Failure(Closing);
      }
      if !IsOid(oid) {
        return Failure(InvalidOid);
      }
      var header := ReadLine();
      if header.None? {
        return Failure(UnexpectedEnd);
      }
      if header.value == oid + " missing" {
        return Failure(Missing);
      }
      var match_ := ParseHeader(header.value);
      if match_.None? {
        return Failure(BadHeader);
      }
      if match_.value.oid != oid {
        return Failure(WrongOid);
      }
      var size := Number(match_.value.size);
      if size > MAX_SAFE_INTEGER {
        return Failure(InvalidSize);
      }
      result := ReadPayloadBytes(size, match_.value.objectType == expectedType);
    }

    /** Calls take their turns in call order, each after the one before has settled. */
    method ReadInTurn(requests: seq<Request>) returns (results: seq<Result<string, ReadError>>)
      requires Valid() && !closing
      modifies this
      ensures Valid() && !closing
      ensures (results, Stream()) == ReadAll(old(Stream()), requests)
    {
      hide ReadOne;
      results := [];
      for k := 0 to |requests|
        invariant Valid() && !closing
        invariant (results, Stream()) == ReadAll(old(Stream()), requests[..k])
      {
        assert requests[..k + 1][..k] == requests[..k];
        var result := ReadObject(requests[k].oid, requests[k].expectedType);
        results := results + [result];
      }
      assert requests[..|requests|] == requests;
    }

    /** `close`, once the reads already in line are done: later reads are refused. */
    method Close()
      requires Valid()
      modifies this`closing
      ensures Valid() && closing && Stream() == old(Stream())
    {
      closing := true;
    }
  }
}
