/**
 V18MigrationProgressCoalescer.ts with a reporter that does not throw: every progress event
 goes in, and a timer bounds how often one comes out.
 */
module ProgressCoalescer {
  import opened Wrappers

  datatype Phase = FinalizePhase | InventoryPhase | RewritePhase | ScratchPhase | VerifyPhase

  datatype Stream = Stream(phase: Phase, message: string, writer: Option<string>)

  datatype Event = Event(stream: Stream, completed: Option<nat>, total: Option<nat>)

  /** What closed the window a delivery came out of, if anything but the timer did. */
  datatype Cut = Uncut | CutByChange | CutByFlush

  /** The report at `index` reached the host at time `at`. */
  datatype Delivery = Delivery(index: nat, at: nat, cut: Cut)

  datatype Action = Report(event: Event, at: nat) | Flush(at: nat) | Fire(at: nat)

  /** Everything reported, with the time of each report, everything delivered, and the window as it stands. */
  datatype Trace = Trace(
    reports: seq<Event>, times: seq<nat>, delivered: seq<Delivery>, pending: Option<nat>, timer: Option<nat>, cut: Cut,
    clock: nat)

  const START := Trace([], [], [], None, None, Uncut, 0)

  // -------------------------------------------------------------------- steps

  function PendingDelivered(t: Trace, at: nat): Trace {
    match t.pending
    case None => t
    case Some(index) => t.(pending := None, delivered := t.delivered + [Delivery(index, at, t.cut)])
  }

  function WindowFinished(t: Trace, at: nat, cut: Cut): Trace {
    PendingDelivered(t.(timer := None, cut := if t.cut == CutByFlush then CutByFlush else cut), at)
  }

  function WindowOpened(t: Trace, at: nat, interval: nat): Trace {
    PendingDelivered(t, at).(timer := Some(at + interval), cut := Uncut)
  }

  predicate ChangesStream(t: Trace, e: Event) {
    t.reports != [] && t.reports[|t.reports| - 1].stream != e.stream
  }

  /** Time does not run backwards, and a timer fires no sooner than it is due. */
  predicate Enabled(t: Trace, a: Action) {
    t.clock <= a.at && (a.Fire? ==> t.timer.Some? && t.timer.value <= a.at)
  }

  /** The newest report replaces the pending one, and goes out at once if no window is open. */
  function ReportTaken(t: Trace, e: Event, at: nat, interval: nat): (after: Trace)
    ensures after.reports == t.reports + [e] && after.times == t.times + [at]
  {
    var taken := t.(reports := t.reports + [e], times := t.times + [at], pending := Some(|t.reports|), clock := at);
    if taken.timer.None? then WindowOpened(taken, at, interval) else taken
  }

  function Step(t: Trace, a: Action, interval: nat): Trace {
    match a
    case Report(e, at) =>
      ReportTaken(if ChangesStream(t, e) then WindowFinished(t, at, CutByChange) else t, e, at, interval)
    case Flush(at) => WindowFinished(t, at, CutByFlush).(clock := at)
    case Fire(at) =>
      var rung := t.(timer := None, clock := at);
      if rung.pending.Some? then WindowOpened(rung, at, interval) else rung
  }

  // --------------------------------------------------------------- properties

  ghost predicate Delivered(delivered: seq<Delivery>, i: nat) {
    exists k | 0 <= k < |delivered| :: delivered[k].index == i
  }

  /** Deliveries are an in-order, duplicate-free subsequence of the reports. */
  predicate InOrder(reports: seq<Event>, delivered: seq<Delivery>, clock: nat) {
    && (forall k | 0 <= k < |delivered| :: delivered[k].index < |reports| && delivered[k].at <= clock)
    && (forall j, k | 0 <= j < k < |delivered| :: delivered[j].index < delivered[k].index)
  }

  /** The stream changes between report `i` and the next one. */
  predicate ChangesAfter(reports: seq<Event>, i: nat) {
    i + 1 < |reports| && reports[i].stream != reports[i + 1].stream
  }

  /** No event that starts or ends a run of one stream is ever dropped. */
  ghost predicate RunEndsDelivered(reports: seq<Event>, delivered: seq<Delivery>) {
    && (reports != [] ==> Delivered(delivered, 0))
    && forall i: nat | ChangesAfter(reports, i) :: Delivered(delivered, i) && Delivered(delivered, i + 1)
  }

  /** The newest report is out, or it is pending and a timer will bring it out. */
  predicate NewestIsOutOrTimed(t: Trace) {
    && (t.pending.Some? ==>
          && t.timer.Some? && t.pending.value == |t.reports| - 1
          && (t.delivered != [] ==> t.delivered[|t.delivered| - 1].index < t.pending.value))
    && (t.pending.None? && t.reports != [] ==>
          t.delivered != [] && t.delivered[|t.delivered| - 1].index == |t.reports| - 1)
  }

  /** All of the reports from `i` to `j` belong to one stream. */
  ghost predicate SameRun(reports: seq<Event>, i: nat, j: nat) {
    forall k: nat | i <= k < j :: !ChangesAfter(reports, k)
  }

  /** Every report has its time, and is delivered no later than the next one arrives. */
  predicate Timed(times: seq<nat>, reports: nat, delivered: seq<Delivery>, clock: nat) {
    && |times| == reports && (forall k | 0 <= k < |times| :: times[k] <= clock)
    && forall k | 0 <= k < |delivered| && delivered[k].index + 1 < |times| ::
         delivered[k].at <= times[delivered[k].index + 1]
  }

  /**
   Two deliveries in a row are an interval apart, unless a flush came in between, or the
   second one ends its run and was brought out by the next run's first report.
   */
  ghost predicate Apart(reports: seq<Event>, times: seq<nat>, d: Delivery, e: Delivery, interval: nat) {
    && (e.cut == Uncut ==> d.at + interval <= e.at)
    && (e.cut == CutByChange && SameRun(reports, d.index, e.index) ==>
          ChangesAfter(reports, e.index) && e.index + 1 < |times| && e.at == times[e.index + 1])
  }

  ghost predicate Spaced(reports: seq<Event>, times: seq<nat>, delivered: seq<Delivery>, interval: nat) {
    forall k | 0 <= k < |delivered| - 1 :: Apart(reports, times, delivered[k], delivered[k + 1], interval)
  }

  /** What the window remembers between deliveries. */
  predicate Windowed(t: Trace, interval: nat) {
    && (t.timer.Some? ==>
          && t.cut == Uncut && t.delivered != []
          && t.timer.value == t.delivered[|t.delivered| - 1].at + interval)
    && (t.timer.None? && t.delivered != [] && t.cut == Uncut ==>
          t.delivered[|t.delivered| - 1].at + interval <= t.clock)
    && (t.reports == [] ==> t.delivered == [])
    && t.cut != CutByChange
  }

  ghost predicate Sound(t: Trace, interval: nat) {
    && InOrder(t.reports, t.delivered, t.clock) && RunEndsDelivered(t.reports, t.delivered)
    && NewestIsOutOrTimed(t) && Spaced(t.reports, t.times, t.delivered, interval) && Windowed(t, interval)
    && Timed(t.times, |t.reports|, t.delivered, t.clock)
  }

  // ------------------------------------------------------------------- proofs

  /** One more delivery, newer than all others and apart from the last one. */
  lemma OneMoreDelivery(
    reports: seq<Event>, times: seq<nat>, delivered: seq<Delivery>, clock: nat, d: Delivery, interval: nat)
    requires InOrder(reports, delivered, clock) && Spaced(reports, times, delivered, interval)
    requires Timed(times, |reports|, delivered, d.at)
    requires clock <= d.at
    requires d.index == |reports| - 1 || (d.index == |reports| - 2 && d.at == times[|reports| - 1])
    requires delivered != [] ==>
               && delivered[|delivered| - 1].index < d.index
               && Apart(reports, times, delivered[|delivered| - 1], d, interval)
    ensures InOrder(reports, delivered + [d], d.at) && Spaced(reports, times, delivered + [d], interval)
    ensures Delivered(delivered + [d], d.index) && Timed(times, |reports|, delivered + [d], d.at)
  {
    hide Apart;
    assert (delivered + [d])[|delivered|] == d;
  }

  lemma DeliveredStays(before: seq<Delivery>, after: seq<Delivery>, i: nat)
    requires before <= after && Delivered(before, i)
    ensures Delivered(after, i)
  {
    var k :| 0 <= k < |before| && before[k].index == i;
    assert after[k] == before[k];
  }

  /** Runs and changes are a matter of the reports alone, and reports are only added. */
  lemma SameRuns(before: seq<Event>, after: seq<Event>, i: nat, j: nat)
    requires before <= after && j < |before|
    ensures SameRun(after, i, j) ==> SameRun(before, i, j)
    ensures ChangesAfter(before, j) ==> ChangesAfter(after, j)
  {
    if SameRun(after, i, j) {
      forall k: nat | i <= k < j
        ensures !ChangesAfter(before, k)
      {
        assert !ChangesAfter(after, k);
      }
    }
  }

  lemma ReportingKeeps(
    reports: seq<Event>, times: seq<nat>, delivered: seq<Delivery>, clock: nat, e: Event, at: nat, interval: nat)
    requires InOrder(reports, delivered, clock) && Spaced(reports, times, delivered, interval)
    requires Timed(times, |reports|, delivered, clock) && clock <= at
    ensures InOrder(reports + [e], delivered, at) && Spaced(reports + [e], times + [at], delivered, interval)
    ensures Timed(times + [at], |reports| + 1, delivered, at)
  {
    forall k | 0 <= k < |delivered| - 1
      ensures Apart(reports + [e], times + [at], delivered[k], delivered[k + 1], interval)
    {
      SameRuns(reports, reports + [e], delivered[k].index, delivered[k + 1].index);
    }
  }

  /** After one more report, only the seam between the old reports and it is new. */
  lemma RunEndsStay(reports: seq<Event>, before: seq<Delivery>, after: seq<Delivery>, e: Event)
    requires RunEndsDelivered(reports, before) && before <= after
    requires reports == [] ==> Delivered(after, 0)
    requires reports != [] && reports[|reports| - 1].stream != e.stream ==>
               Delivered(after, |reports| - 1) && Delivered(after, |reports|)
    ensures RunEndsDelivered(reports + [e], after)
  {
    hide Delivered;
    if reports != [] {
      DeliveredStays(before, after, 0);
    }
    forall i: nat | ChangesAfter(reports + [e], i)
      ensures Delivered(after, i) && Delivered(after, i + 1)
    {
      if i + 1 < |reports| {
        assert ChangesAfter(reports, i);
        DeliveredStays(before, after, i);
        DeliveredStays(before, after, i + 1);
      }
    }
  }

  lemma SameReportsSameEnds(reports: seq<Event>, before: seq<Delivery>, after: seq<Delivery>)
    requires RunEndsDelivered(reports, before) && before <= after
    ensures RunEndsDelivered(reports, after)
  {
    hide Delivered, ChangesAfter;
    if reports != [] {
      DeliveredStays(before, after, 0);
    }
    forall i: nat | ChangesAfter(reports, i)
      ensures Delivered(after, i) && Delivered(after, i + 1)
    {
      DeliveredStays(before, after, i);
      DeliveredStays(before, after, i + 1);
    }
  }

  lemma ClockMayPass(t: Trace, later: nat)
    requires InOrder(t.reports, t.delivered, t.clock) && Timed(t.times, |t.reports|, t.delivered, t.clock)
    requires t.clock <= later
    ensures InOrder(t.reports, t.delivered, later) && Timed(t.times, |t.reports|, t.delivered, later)
  {
  }

  lemma FlushKeeps(t: Trace, at: nat, interval: nat)
    requires Sound(t, interval) && t.clock <= at
    ensures Sound(Step(t, Flush(at), interval), interval)
  {
    hide InOrder, Spaced, RunEndsDelivered, Timed;
    ClockMayPass(t, at);
    if t.pending.Some? {
      var d := Delivery(t.pending.value, at, CutByFlush);
      OneMoreDelivery(t.reports, t.times, t.delivered, t.clock, d, interval);
      SameReportsSameEnds(t.reports, t.delivered, t.delivered + [d]);
    }
  }

  lemma FireKeeps(t: Trace, at: nat, interval: nat)
    requires Sound(t, interval) && Enabled(t, Fire(at))
    ensures Sound(Step(t, Fire(at), interval), interval)
  {
    hide InOrder, Spaced, RunEndsDelivered, Timed;
    ClockMayPass(t, at);
    if t.pending.Some? {
      var d := Delivery(t.pending.value, at, Uncut);
      OneMoreDelivery(t.reports, t.times, t.delivered, t.clock, d, interval);
      SameReportsSameEnds(t.reports, t.delivered, t.delivered + [d]);
    }
  }

  /** A report of the running stream, or the first report of all. */
  lemma SameStreamKeeps(t: Trace, e: Event, at: nat, interval: nat)
    requires Sound(t, interval) && t.clock <= at && !ChangesStream(t, e)
    ensures Sound(Step(t, Report(e, at), interval), interval)
  {
    hide InOrder, Spaced, RunEndsDelivered, Delivered, Timed;
    var reports := t.reports + [e];
    ReportingKeeps(t.reports, t.times, t.delivered, t.clock, e, at, interval);
    if t.timer.None? {
      var d := Delivery(|t.reports|, at, t.cut);
      OneMoreDelivery(reports, t.times + [at], t.delivered, at, d, interval);
      RunEndsStay(t.reports, t.delivered, t.delivered + [d], e);
    } else {
      RunEndsStay(t.reports, t.delivered, t.delivered, e);
    }
  }

  /** The report that ends a run, brought out by the next run's first report. */
  lemma ClosingDelivery(t: Trace, e: Event, at: nat, cut: Cut, interval: nat) returns (closed: seq<Delivery>)
    requires Sound(t, interval) && t.clock <= at && ChangesStream(t, e) && cut != Uncut
    ensures closed == t.delivered + if t.pending.Some? then [Delivery(t.pending.value, at, cut)] else []
    ensures InOrder(t.reports + [e], closed, at) && Spaced(t.reports + [e], t.times + [at], closed, interval)
    ensures Timed(t.times + [at], |t.reports| + 1, closed, at)
    ensures closed != [] && closed[|closed| - 1].index == |t.reports| - 1
  {
    hide InOrder, Spaced;
    ReportingKeeps(t.reports, t.times, t.delivered, t.clock, e, at, interval);
    closed := t.delivered;
    if t.pending.Some? {
      var d := Delivery(t.pending.value, at, cut);
      assert ChangesAfter(t.reports + [e], d.index);
      OneMoreDelivery(t.reports + [e], t.times + [at], t.delivered, at, d, interval);
      closed := t.delivered + [d];
    }
  }

  /** A report of another stream brings out what is pending, then itself. */
  lemma ChangeKeeps(t: Trace, e: Event, at: nat, interval: nat)
    requires Sound(t, interval) && t.clock <= at && ChangesStream(t, e)
    ensures Sound(Step(t, Report(e, at), interval), interval)
  {
    hide InOrder, Spaced, RunEndsDelivered, Apart, Timed;
    var n := |t.reports|;
    var cut := if t.cut == CutByFlush then CutByFlush else CutByChange;
    var closed := ClosingDelivery(t, e, at, cut, interval);
    var d := Delivery(n, at, cut);
    ChangeIsNoRun(t.reports + [e], t.times + [at], closed[|closed| - 1], d, interval);
    OneMoreDelivery(t.reports + [e], t.times + [at], closed, at, d, interval);
    DeliveredStays(closed, closed + [d], n - 1) by {
      assert closed[|closed| - 1].index == n - 1;
    }
    RunEndsStay(t.reports, t.delivered, closed + [d], e);
    var after := Step(t, Report(e, at), interval);
    assert after.delivered == closed + [d] && after.reports == t.reports + [e];
  }

  lemma ChangeIsNoRun(reports: seq<Event>, times: seq<nat>, d: Delivery, e: Delivery, interval: nat)
    requires ChangesAfter(reports, d.index) && e.index == d.index + 1 && e.cut != Uncut
    ensures Apart(reports, times, d, e, interval)
  {
  }

  // --------------------------------------------------------------------- runs

  function Run(actions: seq<Action>, interval: nat): Trace {
    if actions == [] then START else Step(Run(actions[..|actions| - 1], interval), actions[|actions| - 1], interval)
  }

  ghost predicate Possible(actions: seq<Action>, interval: nat) {
    forall k | 0 <= k < |actions| :: Enabled(Run(actions[..k], interval), actions[k])
  }

  lemma StepKeeps(t: Trace, a: Action, interval: nat)
    requires Sound(t, interval) && Enabled(t, a)
    ensures Sound(Step(t, a, interval), interval)
  {
    match a {
      case Report(e, at) =>
        if ChangesStream(t, e) {
          ChangeKeeps(t, e, at, interval);
        } else {
          SameStreamKeeps(t, e, at, interval);
        }
      case Flush(at) => FlushKeeps(t, at, interval);
      case Fire(at) => FireKeeps(t, at, interval);
    }
  }

  /** Every run keeps order, run ends, newest report and spacing. */
  lemma {:induction false} RunsAreSound(actions: seq<Action>, interval: nat)
    requires Possible(actions, interval)
    ensures Sound(Run(actions, interval), interval)
  {
    hide Sound, Step, Enabled;
    if actions == [] {
      StartIsSound(interval);
    } else {
      var front := actions[..|actions| - 1];
      forall k | 0 <= k < |front|
        ensures Enabled(Run(front[..k], interval), front[k])
      {
        assert actions[..k] == front[..k];
      }
      RunsAreSound(front, interval);
      StepKeeps(Run(front, interval), actions[|front|], interval);
    }
  }

  lemma StartIsSound(interval: nat)
    ensures Sound(START, interval)
  {
  }

  /** Only a flush leaves its mark on a delivery. */
  lemma {:induction false} OnlyFlushesCut(actions: seq<Action>, interval: nat)
    requires forall k | 0 <= k < |actions| :: !actions[k].Flush?
    ensures Run(actions, interval).cut != CutByFlush
    ensures forall d | d in Run(actions, interval).delivered :: d.cut != CutByFlush
  {
    if actions != [] {
      OnlyFlushesCut(actions[..|actions| - 1], interval);
    }
  }

  /** Two deliveries in a row that belong to one run of reports, with no flush between them. */
  ghost predicate NeighboursInARun(t: Trace, k: nat) {
    && k + 1 < |t.delivered| && t.delivered[k + 1].cut != CutByFlush
    && SameRun(t.reports, t.delivered[k].index, t.delivered[k + 1].index)
  }

  /** A report of another stream follows report `i`, and arrives before this time. */
  predicate ChangesBefore(t: Trace, i: nat, deadline: nat) {
    ChangesAfter(t.reports, i) && i + 1 < |t.times| && t.times[i + 1] < deadline
  }

  /**
   Two deliveries of one run come closer than an interval exactly when the second ends the
   run and the next run's first report arrives before the interval is over.
   */
  lemma EarlyExactlyBeforeAChange(actions: seq<Action>, interval: nat, k: nat)
    requires Possible(actions, interval)
    requires NeighboursInARun(Run(actions, interval), k)
    ensures var t := Run(actions, interval);
            var d, e := t.delivered[k], t.delivered[k + 1];
            e.at < d.at + interval <==> ChangesBefore(t, e.index, d.at + interval)
  {
    hide RunEndsDelivered, NewestIsOutOrTimed, Windowed, Run, Possible, SameRun;
    RunsAreSound(actions, interval);
    var t := Run(actions, interval);
    assert Apart(t.reports, t.times, t.delivered[k], t.delivered[k + 1], interval);
  }

  /** Without any flush that is all: deliveries of a run are an interval apart or end it early. */
  lemma UnflushedRunsAreSpaced(actions: seq<Action>, interval: nat, k: nat)
    requires Possible(actions, interval) && forall j | 0 <= j < |actions| :: !actions[j].Flush?
    requires var t := Run(actions, interval);
             k + 1 < |t.delivered| && SameRun(t.reports, t.delivered[k].index, t.delivered[k + 1].index)
    ensures var t := Run(actions, interval);
            var d, e := t.delivered[k], t.delivered[k + 1];
            e.at < d.at + interval <==> ChangesBefore(t, e.index, d.at + interval)
  {
    hide Run, Possible, SameRun, ChangesBefore;
    OnlyFlushesCut(actions, interval);
    assert Run(actions, interval).delivered[k + 1] in Run(actions, interval).delivered;
    EarlyExactlyBeforeAChange(actions, interval, k);
  }

  /** Such an early delivery happens, for any two streams. */
  lemma LastOfARunComesEarly(a: Stream, b: Stream)
    requires a != b
    ensures var actions := [Report(Event(a, None, None), 0), Report(Event(a, Some(1), None), 10),
                            Report(Event(b, None, None), 20)];
            && Possible(actions, 100)
            && Run(actions, 100).delivered
               == [Delivery(0, 0, Uncut), Delivery(1, 20, CutByChange), Delivery(2, 20, CutByChange)]
            && SameRun(Run(actions, 100).reports, 0, 1)
  {
    var actions := [Report(Event(a, None, None), 0), Report(Event(a, Some(1), None), 10),
                    Report(Event(b, None, None), 20)];
    assert actions[..3] == actions;
    assert actions[..0] == [] && actions[..1][..0] == [];
    assert actions[..2][..1] == actions[..1] && actions[..3][..2] == actions[..2];
    var one, two := Run(actions[..1], 100), Run(actions[..2], 100);
    assert Run(actions[..1][..0], 100) == START;
    assert one == Step(START, actions[0], 100);
    assert one == Trace([actions[0].event], [0], [Delivery(0, 0, Uncut)], None, Some(100), Uncut, 0);
    assert two == Trace([actions[0].event, actions[1].event], [0, 10], [Delivery(0, 0, Uncut)], Some(1), Some(100),
                        Uncut, 10);
  }

  // -------------------------------------------------------------------- class

  const MAX_SAFE_INTEGER: nat := 9_007_199_254_740_991

  /** The reporter was called with the delivered reports. */
  ghost predicate Tells(reports: seq<Event>, deliveries: seq<Delivery>, delivered: seq<Event>) {
    && |delivered| == |deliveries|
    && forall k | 0 <= k < |delivered| :: deliveries[k].index < |reports| && delivered[k] == reports[deliveries[k].index]
  }

  lemma TellsMore(reports: seq<Event>, deliveries: seq<Delivery>, delivered: seq<Event>, e: Event)
    requires Tells(reports, deliveries, delivered)
    ensures Tells(reports + [e], deliveries, delivered)
  {
  }

  /** `#changesStream` reads three remembered fields; the reporter's calls are `delivered`. */
  class Coalescer {
    const intervalMs: nat
    var hasStream: bool
    var message: string
    var phase: Phase
    var writer: Option<string>
    var pending: Option<Event>
    var timer: Option<nat>
    var delivered: seq<Event>
    ghost var trace: Trace

    /** The fields show the trace, except for the remembered stream. */
    ghost predicate Shows()
      reads this
    {
      && timer == trace.timer
      && (match trace.pending
          case None => pending == None
          case Some(i) => i < |trace.reports| && pending == Some(trace.reports[i]))
      && Tells(trace.reports, trace.delivered, delivered)
    }

    ghost predicate Valid()
      reads this
    {
      && Shows() && Sound(trace, intervalMs)
      && hasStream == (trace.reports != [])
      && (hasStream ==> trace.reports[|trace.reports| - 1].stream == Stream(phase, message, writer))
    }

    constructor (intervalMs: nat)
      ensures Valid() && trace == START && this.intervalMs == intervalMs
    {
      this.intervalMs := intervalMs;
      hasStream, message, phase, writer := false, "", InventoryPhase, None;
      pending, timer, delivered, trace := None, None, [], START;
    }

    method DeliverPending(ghost at: nat)
      requires Shows()
      modifies this`pending, this`delivered, this`trace
      ensures Shows() && trace == PendingDelivered(old(trace), at)
    {
      if pending.Some? {
        delivered := delivered + [pending.value];
        pending := None;
        trace := PendingDelivered(trace, at);
      }
    }

    method FinishWindow(ghost at: nat, ghost cut: Cut)
      requires Shows()
      modifies this`timer, this`pending, this`delivered, this`trace
      ensures Shows() && trace == WindowFinished(old(trace), at, cut)
    {
      timer := None;
      trace := trace.(timer := None, cut := if trace.cut == CutByFlush then CutByFlush else cut);
      DeliverPending(at);
    }

    method Report(e: Event, at: nat)
      requires Valid() && trace.clock <= at
      modifies this
      ensures Valid() && trace == Step(old(trace), Action.Report(e, at), intervalMs)
    {
      hide Sound, Tells, ReportTaken;
      StepKeeps(trace, Action.Report(e, at), intervalMs);
      if hasStream && (e.stream.message != message || e.stream.phase != phase || e.stream.writer != writer) {
        FinishWindow(at, CutByChange);
      }
      hasStream, message, phase, writer := true, e.stream.message, e.stream.phase, e.stream.writer;
      TakeReport(e, at);
    }

    method TakeReport(e: Event, at: nat)
      requires Shows()
      modifies this`pending, this`timer, this`delivered, this`trace
      ensures Shows() && trace == ReportTaken(old(trace), e, at, intervalMs)
    {
      hide Tells;
      pending := Some(e);
      TellsMore(trace.reports, trace.delivered, delivered, e);
      trace := trace.(pending := Some(|trace.reports|), reports := trace.reports + [e], times := trace.times + [at],
                      clock := at);
      if timer.None? {
        DeliverPending(at);
        ScheduleWindow(at);
      }
    }

    method ScheduleWindow(at: nat)
      requires Shows()
      modifies this`timer, this`trace
      ensures Shows() && trace == old(trace).(timer := Some(at + intervalMs), cut := Uncut)
    {
      timer := Some(at + intervalMs);
      trace := trace.(timer := Some(at + intervalMs), cut := Uncut);
    }

    method Flush(at: nat)
      requires Valid() && trace.clock <= at
      modifies this
      ensures Valid() && trace == Step(old(trace), Action.Flush(at), intervalMs)
      ensures pending == None && timer == None
    {
      hide Sound, Tells;
      StepKeeps(trace, Action.Flush(at), intervalMs);
      FinishWindow(at, CutByFlush);
      trace := trace.(clock := at);
    }

    /** The timer rings. */
    method Fire(at: nat)
      requires Valid() && Enabled(trace, Action.Fire(at))
      modifies this
      ensures Valid() && trace == Step(old(trace), Action.Fire(at), intervalMs)
    {
      hide Sound, Tells;
      StepKeeps(trace, Action.Fire(at), intervalMs);
      timer := None;
      trace := trace.(timer := None, clock := at);
      if pending.Some? {
        DeliverPending(at);
        ScheduleWindow(at);
      }
    }
  }

  /** A render interval must be a positive safe integer. */
  method OpenCoalescer(intervalMs: int) returns (c: Coalescer?)
    ensures c == null <==> !(0 < intervalMs <= 9_007_199_254_740_991)
    ensures c != null ==> fresh(c) && c.Valid() && c.trace == START && c.intervalMs == intervalMs
  {
    if intervalMs <= 0 || intervalMs > MAX_SAFE_INTEGER {
      return null;
    }
    c := new Coalescer(intervalMs);
  }
}
