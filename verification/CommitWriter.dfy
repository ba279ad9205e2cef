/**
 V18MigrationGitCommitWriter.ts: commits written through one long-lived `git hash-object`
 process that answers each with a line, in arbitrary chunks.
 */
module CommitWriter {
  import opened Wrappers
  import opened Text
  import opened CommitCodec
  import opened GitObjectReader

  datatype WriteError = ClosingWriter | Unprintable | ProcessEnded | InvalidReply

  datatype Writing = Writing(result: Result<string, WriteError>, rest: string)

  /** What one write makes of the whole remaining reply stream. */
  function WriteOne(replies: string, record: CommitRecord): Writing {
    if SerializeCommit(record).None? then Writing(Failure(Unprintable), replies)
    else
      match FirstIndex(replies, '\n')
      case None => Writing(Failure(ProcessEnded), replies)
      case Some(i) =>
        Writing(if IsOid(replies[..i]) then Success(replies[..i]) else Failure(InvalidReply), replies[i + 1..])
  }

  function WriteAll(replies: string, records: seq<CommitRecord>): (r: (seq<Result<string, WriteError>>, string))
    ensures |r.0| == |records|
  {
    if records == [] then ([], replies)
    else
      var front := WriteAll(replies, records[..|records| - 1]);
      var last := WriteOne(front.1, records[|records| - 1]);
      (front.0 + [last.result], last.rest)
  }

  /** A write succeeds exactly if the record can be printed and the next line is an object name. */
  lemma WriteSucceedsExactly(replies: string, record: CommitRecord, hash: string, rest: string)
    ensures WriteOne(replies, record) == Writing(Success(hash), rest)
       <==> SerializeCommit(record).Some? && IsOid(hash) && replies == hash + "\n" + rest
  {
    hide SerializeCommit;
    if IsOid(hash) && replies == hash + "\n" + rest {
      assert Lacks(hash, '\n');
      FirstLine(hash, rest);
    }
    if FirstIndex(replies, '\n').Some? {
      var i := FirstIndex(replies, '\n').value;
      assert replies == replies[..i] + "\n" + replies[i + 1..];
    }
  }

  /** The process answers every commit text it was given with its hash, and nothing else. */
  function Replies(records: seq<CommitRecord>, hash: string -> string): string {
    if records == [] then ""
    else
      var last := SerializeCommit(records[|records| - 1]);
      Replies(records[..|records| - 1], hash) + if last.Some? then hash(last.value) + "\n" else ""
  }

  function Hashed(record: CommitRecord, hash: string -> string): Result<string, WriteError> {
    match SerializeCommit(record)
    case None => Failure(Unprintable)
    case Some(text) => Success(hash(text))
  }

  ghost predicate HashesAreOids(hash: string -> string) {
    forall text :: IsOid(hash(text))
  }

  lemma WriteReply(record: CommitRecord, hash: string -> string, rest: string)
    requires HashesAreOids(hash)
    ensures var text := SerializeCommit(record);
            WriteOne((if text.Some? then hash(text.value) + "\n" else "") + rest, record)
            == Writing(Hashed(record, hash), rest)
  {
    hide SerializeCommit;
    match SerializeCommit(record)
    case None => assert "" + rest == rest;
    case Some(text) =>
      assert Lacks(hash(text), '\n');
      FirstLine(hash(text), rest);
  }

  /**
   Every printable record gets its own hash, in order: a record the printer refuses is never
   sent, so it takes no reply away from the others.
   */
  lemma {:induction false} EveryRecordGetsItsHash(records: seq<CommitRecord>, hash: string -> string, rest: string)
    requires HashesAreOids(hash)
    ensures WriteAll(Replies(records, hash) + rest, records).1 == rest
    ensures forall i | 0 <= i < |records| ::
              WriteAll(Replies(records, hash) + rest, records).0[i] == Hashed(records[i], hash)
  {
    hide SerializeCommit, Hashed, WriteOne, HashesAreOids;
    if records == [] {
      assert Replies(records, hash) + rest == rest;
    } else {
      var k := |records| - 1;
      var last := SerializeCommit(records[k]);
      var tail := (if last.Some? then hash(last.value) + "\n" else "") + rest;
      assert Replies(records, hash) + rest == Replies(records[..k], hash) + tail;
      EveryRecordGetsItsHash(records[..k], hash, tail);
      WriteReply(records[k], hash, rest);
      assert forall i | 0 <= i < k :: records[..k][i] == records[i];
    }
  }

  class Writer {
    var buffer: string
    var closing: bool
    /** The reply chunks the process will still deliver. */
    var incoming: seq<string>

    ghost function Stream(): string
      reads this
    {
      buffer + Concat(incoming)
    }

    constructor (incoming: seq<string>)
      ensures Stream() == Concat(incoming) && !closing
    {
      this.incoming := incoming;
      buffer, closing := "", false;
    }

    /** `#readLine` over one growing buffer. */
    method ReadLine() returns (line: Option<string>)
      modifies this
      ensures closing == old(closing)
      ensures match FirstIndex(old(Stream()), '\n')
              case None => line == None && Stream() == old(Stream())
              case Some(i) => line == Some(old(Stream())[..i]) && Stream() == old(Stream())[i + 1..]
    {
      while true
        invariant Stream() == old(Stream()) && closing == old(closing)
        decreases |incoming|
      {
        var newline := FirstIndex(buffer, '\n');
        if newline.Some? {
          FirstIndexOfPrefix(buffer, Concat(incoming), '\n');
          assert Stream()[..newline.value] == buffer[..newline.value];
          assert Stream()[newline.value + 1..] == buffer[newline.value + 1..] + Concat(incoming);
          line := Some(buffer[..newline.value]);
          buffer := buffer[newline.value + 1..];
          return;
        }
        if incoming == [] {
          assert Stream() == buffer;
          return None;
        }
        assert buffer + (incoming[0] + Concat(incoming[1..])) == (buffer + incoming[0]) + Concat(incoming[1..]);
        buffer := if buffer == "" then incoming[0] else buffer + incoming[0];
        incoming := incoming[1..];
      }
    }

    method WriteCommit(record: CommitRecord) returns (result: Result<string, WriteError>)
      modifies this
      ensures closing == old(closing)
      ensures closing ==> result == Failure(ClosingWriter) && Stream() == old(Stream())
      ensures !closing ==> Writing(result, Stream()) == WriteOne(old(Stream()), record)
    {
      hide SerializeCommit, IsOid;
      if closing {
        return Failure(ClosingWriter);
      }
      if SerializeCommit(record).None? {
        return Failure(Unprintable);
      }
      var oid := ReadLine();
      if oid.None? {
        return Failure(ProcessEnded);
      }
      result := if IsOid(oid.value) then Success(oid.value) else Failure(InvalidReply);
    }

    /** Calls take their turns on the tail, in call order. */
    method WriteInTurn(records: seq<CommitRecord>) returns (results: seq<Result<string, WriteError>>)
      requires !closing
      modifies this
      ensures !closing && (results, Stream()) == WriteAll(old(Stream()), records)
    {
      hide WriteOne;
      results := [];
      for k := 0 to |records|
        invariant !closing && (results, Stream()) == WriteAll(old(Stream()), records[..k])
      {
        assert records[..k + 1][..k] == records[..k];
        var result := WriteCommit(records[k]);
        results := results + [result];
      }
      assert records[..|records|] == records;
    }
  }
}
