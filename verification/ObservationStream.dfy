/**
 The reading stream of RuntimeLaneAdapter.ts, from its first pull: it yields the decoded
 readings, settles the observation receipt, and gives its activity lease back.
 */
module ObservationStream {
  import opened Wrappers

  type Error = string
  type Value = string

  /** Names of lanes and writers, and ids of ticks, are checked where those are made. */
  type NonEmpty = s: string | s != "" witness "-"

  datatype Tick = Tick(id: NonEmpty, timeline: NonEmpty)

  /** The ids of its handles, and its tick if it has one. */
  datatype Evidence = Evidence(basis: string, support: seq<string>, tick: Option<Tick>)

  datatype RepairHint = RepairHint(code: string, message: string)

  datatype ReadOutcome = AcceptedRead | ObstructedRead | UnderdeterminedRead | OtherRead

  datatype ReadReceipt =
    ReadReceipt(outcome: ReadOutcome, evidence: Option<Evidence>, reason: Option<string>, hints: seq<RepairHint>)

  datatype ReadAnswer = ReadFails(error: Error) | ReadAnswers(receipt: ReadReceipt, raw: Value)

  /** What an observation receipt is made from. */
  datatype Fields = Fields(
    lane: string, writer: string, status: string, reason: Option<string>, evidence: Option<Evidence>,
    hints: seq<RepairHint>)

  type ObservationReceipt = f: Fields | Acceptable(f)
    witness Fields("-", "-", OBSTRUCTED, Some("-"), None, [])

  /** What the receipt promise settled to. */
  datatype Final = Resolved(receipt: ObservationReceipt) | Rejected(error: Error)

  /** What the consumer does at a yield. */
  datatype Resume = Pull | Stop | ThrowIn(error: Error)

  datatype Ending = Finished | Stopped | Failed(error: Error)

  /** Everything outside the stream: its lane, its plans' answers, its consumer, and what may fail. */
  datatype Observation = Observation(
    lane: NonEmpty,
    writer: NonEmpty,
    answers: seq<ReadAnswer>,
    /** Asking for a plan after the last one fails. */
    plansFail: Option<Error>,
    /** Closing the plan iterator early fails. */
    closingFails: Option<Error>,
    tick: Option<Tick>,
    decode: Value -> Result<Value, Error>,
    consumer: nat -> Resume)

  const NO_EVIDENCE: Error := "E_OBSERVATION_EVIDENCE_INVARIANT"
  const BAD_STATUS: Error := "E_OBSERVATION_STATUS_INVARIANT"
  const INVALID: Error := "E_VALIDATION"
  const RECEIPT_STATUS: Error := "E_OBSERVATION_RECEIPT_STATUS"
  const RECEIPT_EVIDENCE: Error := "E_OBSERVATION_RECEIPT_EVIDENCE"
  const RECEIPT_REASON: Error := "E_OBSERVATION_RECEIPT_REASON"
  const TICK_LANE: Error := "E_READING_TICK_LANE"

  const COMPLETED := "completed"
  const OBSTRUCTED := "obstructed"
  const UNDERDETERMINED := "underdetermined"

  // ------------------------------------------------------------------ receipts

  predicate ValidEvidence(e: Evidence) {
    e.basis != "" && forall id | id in e.support :: id != ""
  }

  predicate ValidHints(hints: seq<RepairHint>) {
    forall hint | hint in hints :: hint.code != "" && hint.message != ""
  }

  /** A completed receipt has evidence and no reason, another one has a reason. */
  predicate Acceptable(f: Fields) {
    && f.lane != "" && f.writer != ""
    && (|| (f.status == COMPLETED && f.evidence.Some? && f.reason.None?)
        || ((f.status == OBSTRUCTED || f.status == UNDERDETERMINED) && f.reason.Some? && f.reason.value != ""))
    && (f.evidence.Some? ==> ValidEvidence(f.evidence.value)) && ValidHints(f.hints)
  }

  /** The receipt's constructor, check by check. */
  function Construct(f: Fields): (r: Result<ObservationReceipt, Error>)
    ensures r.Success? <==> Acceptable(f)
    ensures r.Success? ==> r.value == f
  {
    if f.lane == "" || f.writer == "" then Failure(INVALID)
    else if f.status !in {COMPLETED, OBSTRUCTED, UNDERDETERMINED} then Failure(RECEIPT_STATUS)
    else if f.status == COMPLETED && f.evidence.None? then Failure(RECEIPT_EVIDENCE)
    else if f.status == COMPLETED && f.reason.Some? then Failure(RECEIPT_REASON)
    else if f.status != COMPLETED && (f.reason.None? || f.reason.value == "") then Failure(INVALID)
    else if f.evidence.Some? && !ValidEvidence(f.evidence.value) then Failure(INVALID)
    else if !ValidHints(f.hints) then Failure(INVALID)
    else Success(f)
  }

  /** The constructor accepts a receipt exactly if every name, id, hint and reason in it says something. */
  lemma ConstructsExactly(f: Fields)
    ensures Construct(f).Success?
       <==> && f.lane != "" && f.writer != ""
            && (if f.status == "completed" then f.evidence.Some? && f.reason.None?
                else
                  (f.status == "obstructed" || f.status == "underdetermined") && f.reason.Some? && f.reason.value != "")
            && (f.evidence.Some? ==> f.evidence.value.basis != "" && "" !in f.evidence.value.support)
            && forall hint | hint in f.hints :: hint.code != "" && hint.message != ""
  {
  }

  function TickEvidence(t: Tick): Evidence {
    Evidence(t.id, [], Some(t))
  }

  function StatusOf(outcome: ReadOutcome): string
    requires outcome.ObstructedRead? || outcome.UnderdeterminedRead?
  {
    if outcome.ObstructedRead? then OBSTRUCTED else UNDERDETERMINED
  }

  /** `observationReceiptFrom` */
  function ReceiptFor(o: Observation, r: ReadReceipt): Result<ObservationReceipt, Error> {
    match r.outcome
    case AcceptedRead =>
      if r.evidence.None? then Failure(NO_EVIDENCE)
      else Construct(Fields(o.lane, o.writer, COMPLETED, None, r.evidence, []))
    case OtherRead => Failure(BAD_STATUS)
    case outcome =>
      Construct(Fields(o.lane, o.writer, StatusOf(outcome),
                       Some(if r.reason.Some? then r.reason.value else "observation_unresolved"), r.evidence, r.hints))
  }

  /** `emptyObservationReceipt`, for a stream without plans. */
  function EmptyReceipt(o: Observation): Result<ObservationReceipt, Error> {
    match o.tick
    case None => Construct(Fields(o.lane, o.writer, OBSTRUCTED, Some("missing_bounded_basis"), None, []))
    case Some(tick) => Construct(Fields(o.lane, o.writer, COMPLETED, None, Some(TickEvidence(tick)), []))
  }

  function CancelledFields(o: Observation): Fields {
    Fields(o.lane, o.writer, OBSTRUCTED, Some("consumer_cancelled"),
           if o.tick.Some? then Some(TickEvidence(o.tick.value)) else None, [])
  }

  /** `readingFrom`, for an accepted read: its evidence must be there, valid, and of this lane. */
  function ReadingFrom(o: Observation, r: ReadReceipt, raw: Value): Result<Value, Error> {
    if r.evidence.None? then Failure(NO_EVIDENCE)
    else if o.decode(raw).Failure? then o.decode(raw)
    else if !ValidEvidence(r.evidence.value) then Failure(INVALID)
    else if r.evidence.value.tick.Some? && r.evidence.value.tick.value.timeline != o.lane then Failure(TICK_LANE)
    else o.decode(raw)
  }

  // ----------------------------------------------------------- reference answer

  /** A read that yields: accepted, decodable, with valid evidence of this lane. */
  predicate Good(o: Observation, a: ReadAnswer) {
    a.ReadAnswers? && a.receipt.outcome == AcceptedRead && ReadingFrom(o, a.receipt, a.raw).Success?
  }

  predicate StopsAt(o: Observation, i: nat) {
    i >= |o.answers| || !Good(o, o.answers[i]) || o.consumer(i) != Pull
  }

  /** The first read the stream does not simply yield and continue after. */
  function FirstStop(o: Observation, from: nat): (i: nat)
    requires from <= |o.answers|
    ensures from <= i <= |o.answers| && StopsAt(o, i)
    ensures forall j: nat | from <= j < i :: !StopsAt(o, j)
    decreases |o.answers| - from
  {
    if StopsAt(o, from) then from else FirstStop(o, from + 1)
  }

  function DrainedReceipt(o: Observation, last: Option<ReadReceipt>): Result<ObservationReceipt, Error> {
    match last
    case None => EmptyReceipt(o)
    case Some(receipt) => ReceiptFor(o, receipt)
  }

  function LastReceipt(o: Observation): Option<ReadReceipt> {
    if o.answers != [] && o.answers[|o.answers| - 1].ReadAnswers? then Some(o.answers[|o.answers| - 1].receipt) else None
  }

  datatype Expectation = Expectation(final: Option<Final>, released: bool, ending: Ending)

  function Settles(r: Result<ObservationReceipt, Error>, ending: Ending): Expectation {
    match r
    case Success(receipt) => Expectation(Some(Resolved(receipt)), true, ending)
    case Failure(e) => Rejects(e)
  }

  function Rejects(e: Error): Expectation {
    Expectation(Some(Rejected(e)), true, Failed(e))
  }

  function Closing(o: Observation, otherwise: Ending): Ending {
    if o.closingFails.Some? then Failed(o.closingFails.value) else otherwise
  }

  /** A consumer that stops gets the cancelled receipt; if it cannot be built, nothing is settled or released. */
  function Cancels(o: Observation): Expectation {
    if o.closingFails.Some? then Rejects(o.closingFails.value)
    else
      match Construct(CancelledFields(o))
      case Success(receipt) => Expectation(Some(Resolved(receipt)), true, Stopped)
      case Failure(e) => Expectation(None, false, Failed(e))
  }

  /** What the stream must come to, told from the read it stops at. */
  function Expected(o: Observation): Expectation {
    var i := FirstStop(o, 0);
    if i == |o.answers| then
      if o.plansFail.Some? then Rejects(o.plansFail.value) else Settles(DrainedReceipt(o, LastReceipt(o)), Finished)
    else
      match o.answers[i]
      case ReadFails(e) => Rejects(e)
      case ReadAnswers(receipt, raw) =>
        if receipt.outcome != AcceptedRead then Settles(ReceiptFor(o, receipt), Closing(o, Finished))
        else if ReadingFrom(o, receipt, raw).Failure? then Rejects(ReadingFrom(o, receipt, raw).error)
        else
          match o.consumer(i)
          case ThrowIn(e) => Rejects(e)
          case _ => Cancels(o)
  }

  /** The decoded readings of the accepted prefix, the one the consumer stopped at included. */
  function YieldedCount(o: Observation): nat {
    var i := FirstStop(o, 0);
    if i < |o.answers| && Good(o, o.answers[i]) then i + 1 else i
  }

  ghost predicate YieldsPrefix(o: Observation, yielded: seq<Value>, n: nat) {
    && |yielded| == n <= |o.answers|
    && forall i | 0 <= i < n :: Good(o, o.answers[i]) && Success(yielded[i]) == o.decode(o.answers[i].raw)
  }

  // -------------------------------------------------------------------- objects

  /** A promise: the first settlement stays. */
  class ReceiptSettlement {
    var final: Option<Final>

    constructor ()
      ensures final == None
    {
      final := None;
    }

    method Resolve(receipt: ObservationReceipt)
      modifies this
      ensures final == if old(final).Some? then old(final) else Some(Resolved(receipt))
    {
      if final.None? {
        final := Some(Resolved(receipt));
      }
    }

    method Reject(error: Error)
      modifies this
      ensures final == if old(final).Some? then old(final) else Some(Rejected(error))
    {
      if final.None? {
        final := Some(Rejected(error));
      }
    }
  }

  /** `released` guards the lease against a second release. */
  class Lease {
    var released: bool
    var finished: nat

    constructor ()
      ensures !released && finished == 0
    {
      released, finished := false, 0;
    }

    method Release()
      modifies this
      ensures released && finished == old(finished) + if old(released) then 0 else 1
    {
      if !released {
        released := true;
        finished := finished + 1;
      }
    }
  }

  /** How the inner generator leaves the outer one. */
  datatype Flow = SettledInside | PlansDone(last: Option<ReadReceipt>) | ThrewOut(error: Error) | ConsumerStopped

  // -------------------------------------------------------------------- methods

  /** What the inner generator's exit means for the expectation. */
  ghost predicate FlowMeans(o: Observation, flow: Flow, final: Option<Final>, expected: Expectation) {
    match flow
    case SettledInside => final.Some? && expected == Expectation(final, true, Finished)
    case PlansDone(last) =>
      && final.None?
      && expected == Settles(DrainedReceipt(o, last), Finished)
    case ThrewOut(e) => expected == (if final.Some? then Expectation(final, true, Failed(e)) else Rejects(e))
    case ConsumerStopped => final.None? && o.closingFails.None? && expected == Cancels(o)
  }

  /** `acceptedReadings`: one read per plan, until one is not accepted or the consumer has enough. */
  method AcceptedReadings(o: Observation, settlement: ReceiptSettlement) returns (yielded: seq<Value>, flow: Flow)
    requires settlement.final == None
    modifies settlement
    ensures YieldsPrefix(o, yielded, YieldedCount(o))
    ensures FlowMeans(o, flow, settlement.final, Expected(o))
  {
    yielded := [];
    var lastReceipt: Option<ReadReceipt> := None;
    for i := 0 to |o.answers|
      invariant settlement.final == None
      invariant FirstStop(o, 0) == FirstStop(o, i)
      invariant YieldsPrefix(o, yielded, i)
      invariant lastReceipt == if i > 0 && o.answers[i - 1].ReadAnswers? then Some(o.answers[i - 1].receipt) else None
    {
      if o.answers[i].ReadFails? {
        return yielded, ThrewOut(o.answers[i].error);
      }
      var receipt := o.answers[i].receipt;
      lastReceipt := Some(receipt);
      if receipt.outcome != AcceptedRead {
        flow := SettleUnresolved(o, settlement, receipt);
        return;
      }
      var reading := ReadingFrom(o, receipt, o.answers[i].raw);
      if reading.Failure? {
        return yielded, ThrewOut(reading.error);
      }
      yielded := yielded + [reading.value];
      match o.consumer(i) {
        case Pull =>
        case ThrowIn(e) => return yielded, ThrewOut(e);
        case Stop => return yielded, if o.closingFails.Some? then ThrewOut(o.closingFails.value) else ConsumerStopped;
      }
    }
    flow := if o.plansFail.Some? then ThrewOut(o.plansFail.value) else PlansDone(lastReceipt);
  }

  /** A read that was not accepted settles the receipt and closes the plans. */
  method SettleUnresolved(o: Observation, settlement: ReceiptSettlement, receipt: ReadReceipt) returns (flow: Flow)
    requires settlement.final == None && receipt.outcome != AcceptedRead
    modifies settlement
    ensures FlowMeans(o, flow, settlement.final, Settles(ReceiptFor(o, receipt), Closing(o, Finished)))
  {
    var built := ReceiptFor(o, receipt);
    if built.Failure? {
      return ThrewOut(built.error);
    }
    settlement.Resolve(built.value);
    flow := if o.closingFails.Some? then ThrewOut(o.closingFails.value) else SettledInside;
  }

  /**
   `streamReadings`: whatever the ending, the receipt and the lease are as expected, and the
   readings are the decoded accepted prefix.
   */
  method StreamReadings(o: Observation, settlement: ReceiptSettlement, lease: Lease)
    returns (yielded: seq<Value>, ending: Ending)
    requires settlement.final == None && !lease.released && lease.finished == 0
    modifies settlement, lease
    ensures YieldsPrefix(o, yielded, YieldedCount(o))
    ensures Expectation(settlement.final, lease.released, ending) == Expected(o)
    ensures lease.finished == if lease.released then 1 else 0
  {
    hide Expected, YieldsPrefix;
    var completed := false;
    var flow: Flow;
    yielded, flow := AcceptedReadings(o, settlement);
    ending := Finished;
    match flow {
      case SettledInside => completed := true;
      case PlansDone(last) =>
        var built := DrainedReceipt(o, last);
        completed := true;
        if built.Success? {
          settlement.Resolve(built.value);
        } else {
          settlement.Reject(built.error);
          ending := Failed(built.error);
        }
      case ThrewOut(e) =>
        settlement.Reject(e);
        completed := true;
        ending := Failed(e);
      case ConsumerStopped =>
        ending := Stopped;
    }
    if !completed {
      var cancelled := Construct(CancelledFields(o));
      if cancelled.Failure? {
        return yielded, Failed(cancelled.error);
      }
      settlement.Resolve(cancelled.value);
    }
    lease.Release();
  }

  // ------------------------------------------------------------------ properties

  /** The cancelled receipt of a checked lane can always be built. */
  lemma CancelledReceiptBuilds(o: Observation)
    ensures Construct(CancelledFields(o)) == Success(CancelledFields(o))
  {
    if o.tick.Some? {
      assert ValidEvidence(TickEvidence(o.tick.value));
    }
  }

  /** So every ending settles the receipt and releases the lease. */
  lemma EveryEndingSettles(o: Observation)
    ensures Expected(o).final.Some? && Expected(o).released
  {
    CancelledReceiptBuilds(o);
  }

  /**
   The receipt is completed exactly when every plan's read was accepted and yielded, the
   consumer took them all, and the plans came to their end; with no plans at all, only if the
   stream had a tick to stand on.
   */
  lemma CompletedExactlyWhenDrained(o: Observation)
    ensures && Expected(o).final.Some? && Expected(o).final.value.Resolved?
            && Expected(o).final.value.receipt.status == COMPLETED
       <==> && (forall i: nat | i < |o.answers| :: Good(o, o.answers[i]) && o.consumer(i) == Pull)
            && o.plansFail.None? && (o.answers == [] ==> o.tick.Some?)
  {
    AllTakenExactlyWhenNoStop(o);
    CancelledReceiptBuilds(o);
    StatusesDiffer();
    var i := FirstStop(o, 0);
    if i == |o.answers| {
      if i > 0 {
        assert Good(o, o.answers[i - 1]);
      } else if o.tick.Some? {
        assert ValidEvidence(TickEvidence(o.tick.value));
      }
    }
    hide FirstStop;
  }

  lemma StatusesDiffer()
    ensures COMPLETED != OBSTRUCTED && COMPLETED != UNDERDETERMINED
  {
    assert |COMPLETED| == 9 && |OBSTRUCTED| == 10 && |UNDERDETERMINED| == 15;
  }

  lemma AllTakenExactlyWhenNoStop(o: Observation)
    ensures FirstStop(o, 0) == |o.answers|
       <==> forall i: nat | i < |o.answers| :: Good(o, o.answers[i]) && o.consumer(i) == Pull
  {
    var i := FirstStop(o, 0);
    if i == |o.answers| {
      forall j: nat | j < |o.answers|
        ensures Good(o, o.answers[j]) && o.consumer(j) == Pull
      {
        assert !StopsAt(o, j);
      }
    }
  }

  /** What the constructor of a read receipt has checked, if the read was not accepted. */
  predicate CheckedRefusal(r: ReadReceipt) {
    && (r.outcome.ObstructedRead? || r.outcome.UnderdeterminedRead?)
    && r.reason.Some? && r.reason.value != ""
    && (r.evidence.Some? ==> ValidEvidence(r.evidence.value)) && ValidHints(r.hints)
  }

  /**
   A stream that stops at a refused read hands on its status, reason, evidence and hints,
   and keeps that receipt even when closing the plans fails afterwards.
   */
  lemma RefusedReadIsHandedOn(o: Observation)
    requires var i := FirstStop(o, 0);
             i < |o.answers| && o.answers[i].ReadAnswers? && CheckedRefusal(o.answers[i].receipt)
    ensures var r := o.answers[FirstStop(o, 0)].receipt;
            var status := if r.outcome == ObstructedRead then "obstructed" else "underdetermined";
            var f := Fields(o.lane, o.writer, status, r.reason, r.evidence, r.hints);
            && Acceptable(f)
            && Expected(o)
               == Expectation(Some(Resolved(f)), true,
                              if o.closingFails.Some? then Failed(o.closingFails.value) else Finished)
  {
    hide FirstStop;
  }

  /** A read is yielded if it is accepted, decodes, and its evidence has ids and a tick of this lane or none. */
  lemma GoodExactly(o: Observation, a: ReadAnswer)
    ensures Good(o, a)
       <==> && a.ReadAnswers? && a.receipt.outcome == AcceptedRead && o.decode(a.raw).Success?
            && a.receipt.evidence.Some?
            && var e := a.receipt.evidence.value;
               && e.basis != "" && (forall id | id in e.support :: id != "")
               && (e.tick.Some? ==> e.tick.value.timeline == o.lane)
  {
  }

  /** All reads before `i` are yielded, and the consumer goes on after each. */
  predicate TakenUpTo(o: Observation, i: nat) {
    i <= |o.answers| && forall j: nat | j < i :: Good(o, o.answers[j]) && o.consumer(j) == Pull
  }

  lemma TakenIsBeforeTheStop(o: Observation, i: nat)
    requires TakenUpTo(o, i) && StopsAt(o, i)
    ensures FirstStop(o, 0) == i
  {
  }

  function Resolves(f: ObservationReceipt, ending: Ending): Expectation {
    Expectation(Some(Resolved(f)), true, ending)
  }

  /**
   How a stream ends whose reads were all taken: rejected if its plans fail, else completed
   with the last read's evidence, or without any read with the tick's, or for want of a tick
   obstructed.
   */
  lemma DrainedEnding(o: Observation)
    requires TakenUpTo(o, |o.answers|)
    ensures o.plansFail.Some? ==>
              Expected(o) == Expectation(Some(Rejected(o.plansFail.value)), true, Failed(o.plansFail.value))
    ensures o.plansFail.None? && o.answers != [] ==>
              var evidence := o.answers[|o.answers| - 1].receipt.evidence;
              var f := Fields(o.lane, o.writer, "completed", None, evidence, []);
              Acceptable(f) && Expected(o) == Resolves(f, Finished)
    ensures o.plansFail.None? && o.answers == [] && o.tick.Some? ==>
              var evidence := Evidence(o.tick.value.id, [], o.tick);
              var f := Fields(o.lane, o.writer, "completed", None, Some(evidence), []);
              Acceptable(f) && Expected(o) == Resolves(f, Finished)
    ensures o.plansFail.None? && o.answers == [] && o.tick.None? ==>
              var f := Fields(o.lane, o.writer, "obstructed", Some("missing_bounded_basis"), None, []);
              Acceptable(f) && Expected(o) == Resolves(f, Finished)
  {
    TakenIsBeforeTheStop(o, |o.answers|);
    if o.answers != [] {
      var last := o.answers[|o.answers| - 1];
      assert Good(o, last);
      GoodExactly(o, last);
      Completes(o, last.receipt.evidence);
    } else if o.tick.Some? {
      Completes(o, Some(TickEvidence(o.tick.value)));
    }
    hide FirstStop;
  }

  lemma Completes(o: Observation, evidence: Option<Evidence>)
    requires evidence.Some? && ValidEvidence(evidence.value)
    ensures var f := Fields(o.lane, o.writer, "completed", None, evidence, []);
            Acceptable(f) && Construct(f) == Success(f)
  {
  }

  /** How it ends at a read that fails, or cannot be yielded, or at a consumer that throws. */
  lemma ThrownEnding(o: Observation, i: nat)
    requires TakenUpTo(o, i) && i < |o.answers|
    ensures o.answers[i].ReadFails? ==>
              Expected(o)
              == Expectation(Some(Rejected(o.answers[i].error)), true, Failed(o.answers[i].error))
    ensures o.answers[i].ReadAnswers? && o.answers[i].receipt.outcome == AcceptedRead && !Good(o, o.answers[i]) ==>
              var a := o.answers[i];
              var error := if a.receipt.evidence.None? then "E_OBSERVATION_EVIDENCE_INVARIANT"
                           else if o.decode(a.raw).Failure? then o.decode(a.raw).error
                           else if a.receipt.evidence.value.basis == "" || "" in a.receipt.evidence.value.support then
                             "E_VALIDATION"
                           else "E_READING_TICK_LANE";
              Expected(o) == Expectation(Some(Rejected(error)), true, Failed(error))
    ensures o.answers[i].ReadAnswers? && o.answers[i].receipt.outcome == OtherRead ==>
              var error := "E_OBSERVATION_STATUS_INVARIANT";
              Expected(o) == Expectation(Some(Rejected(error)), true, Failed(error))
    ensures Good(o, o.answers[i]) && o.consumer(i).ThrowIn? ==>
              Expected(o) == Expectation(Some(Rejected(o.consumer(i).error)), true, Failed(o.consumer(i).error))
  {
    if StopsAt(o, i) {
      TakenIsBeforeTheStop(o, i);
    }
    hide FirstStop;
  }

  /** How it ends for a consumer that stops: cancelled, unless closing the plans fails. */
  lemma StoppedEnding(o: Observation, i: nat)
    requires TakenUpTo(o, i) && i < |o.answers| && Good(o, o.answers[i]) && o.consumer(i) == Stop
    ensures o.closingFails.Some? ==>
              Expected(o) == Expectation(Some(Rejected(o.closingFails.value)), true, Failed(o.closingFails.value))
    ensures o.closingFails.None? ==>
              var evidence := if o.tick.Some? then Some(Evidence(o.tick.value.id, [], o.tick)) else None;
              var f := Fields(o.lane, o.writer, "obstructed", Some("consumer_cancelled"), evidence, []);
              Acceptable(f) && Expected(o) == Resolves(f, Stopped)
  {
    TakenIsBeforeTheStop(o, i);
    CancelledReceiptBuilds(o);
    hide FirstStop;
  }
}
