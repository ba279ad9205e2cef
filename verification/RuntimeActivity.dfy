/**
 RuntimeActivity.ts: admission of activities and leases, and a close that releases local
 resources only after everything admitted has settled.
 */
module RuntimeActivity {
  import opened Wrappers

  datatype Status = Open | Closing | Closed

  /** A tracked promise: an operation waiting for its first tick or running, a lease, or settled. */
  datatype Entry = Scheduled | Running | Leased | Settled

  datatype Release = NotCalled | InProgress | Finished

  /**
   `active` is the set of tracked promises; a settled one leaves it a moment later. `awaited`
   is what `close` found there, and `admittedAtClose` how many had been admitted by then.
   */
  datatype Activity = Activity(
    status: Status, entries: seq<Entry>, active: set<nat>, awaited: Option<set<nat>>, admittedAtClose: nat,
    release: Release, releases: nat)

  const NEW_ACTIVITY := Activity(Open, [], {}, None, 0, NotCalled, 0)

  datatype Event =
    | Run | Acquire | Begin(entry: nat) | Settle(entry: nat) | Untrack(entry: nat) | Close | BeginRelease | EndRelease

  /** `#assertOpen` fails. */
  predicate Refuses(a: Activity, e: Event) {
    (e == Run || e == Acquire) && a.status != Open
  }

  predicate AllSettled(a: Activity) {
    forall k | 0 <= k < |a.entries| :: a.entries[k] == Settled
  }

  predicate Enabled(a: Activity, e: Event) {
    match e
    case Run => true
    case Acquire => true
    case Begin(k) => k < |a.entries| && a.entries[k] == Scheduled
    case Settle(k) => k < |a.entries| && (a.entries[k] == Running || a.entries[k] == Leased || a.entries[k] == Settled)
    case Untrack(k) => k < |a.entries| && a.entries[k] == Settled
    case Close => true
    case BeginRelease =>
      && a.awaited.Some? && a.release == NotCalled
      && forall k | k in a.awaited.value :: k < |a.entries| && a.entries[k] == Settled
    case EndRelease => a.release == InProgress
  }

  /** Refused admissions, a second close and a second release of a lease change nothing. */
  function Step(a: Activity, e: Event): Activity
    requires Enabled(a, e)
  {
    match e
    case Run => if a.status != Open then a else a.(entries := a.entries + [Scheduled], active := a.active + {|a.entries|})
    case Acquire => if a.status != Open then a else a.(entries := a.entries + [Leased], active := a.active + {|a.entries|})
    case Begin(k) => a.(entries := a.entries[k := Running])
    case Settle(k) => a.(entries := a.entries[k := Settled])
    case Untrack(k) => a.(active := a.active - {k})
    case Close =>
      if a.awaited.Some? then a
      else a.(status := Closing, awaited := Some(a.active), admittedAtClose := |a.entries|)
    case BeginRelease => a.(release := InProgress, releases := a.releases + 1)
    case EndRelease => a.(release := Finished, status := Closed)
  }

  /** Nothing unsettled escapes the set, and nothing is admitted once closing has begun. */
  ghost predicate Sound(a: Activity) {
    && (forall k: nat | k < |a.entries| && a.entries[k] != Settled :: k in a.active)
    && (forall k | k in a.active :: k < |a.entries|)
    && (a.status == Open <==> a.awaited.None?)
    && (a.awaited.Some? ==>
          && a.admittedAtClose == |a.entries|
          && (forall k: nat | k < |a.entries| && a.entries[k] != Settled :: k in a.awaited.value)
          && (forall k | k in a.awaited.value :: k < |a.entries|))
    && (a.release == NotCalled <==> a.releases == 0) && a.releases <= 1
    && (a.release != NotCalled ==> a.awaited.Some? && AllSettled(a))
    && (a.status == Closed <==> a.release == Finished)
  }

  lemma StepKeeps(a: Activity, e: Event)
    requires Sound(a) && Enabled(a, e)
    ensures Sound(Step(a, e))
  {
  }

  /**
   Local resources are released at most once, only when every activity and lease ever admitted
   has settled, and while that is not so the release waits; afterwards nothing is admitted.
   */
  lemma ReleaseWaitsForEverything(a: Activity)
    requires Sound(a)
    ensures a.releases <= 1
    ensures Enabled(a, BeginRelease) <==> a.status == Closing && a.release == NotCalled && AllSettled(a)
    ensures a.releases > 0 ==> AllSettled(a) && Refuses(a, Run) && Refuses(a, Acquire)
  {
    if a.awaited.Some? && a.release == NotCalled && !AllSettled(a) {
      var k :| 0 <= k < |a.entries| && a.entries[k] != Settled;
      assert k in a.awaited.value;
    }
  }

  // --------------------------------------------------------------------- runs

  function After(events: seq<Event>): Option<Activity> {
    if events == [] then Some(NEW_ACTIVITY)
    else
      var front := After(events[..|events| - 1]);
      if front.Some? && Enabled(front.value, events[|events| - 1]) then
        Some(Step(front.value, events[|events| - 1]))
      else None
  }

  lemma {:induction false} PrefixPossible(events: seq<Event>, n: nat)
    requires After(events).Some? && n <= |events|
    ensures After(events[..n]).Some?
    decreases |events|
  {
    if n < |events| {
      PrefixPossible(events[..|events| - 1], n);
      assert events[..|events| - 1][..n] == events[..n];
    } else {
      assert events[..n] == events;
    }
  }

  lemma {:induction false} RunsAreSound(events: seq<Event>)
    requires After(events).Some?
    ensures Sound(After(events).value)
    ensures After(events).value.status == Open <==> Close !in events
  {
    hide Sound, Enabled, Step;
    if events != [] {
      var front, e := events[..|events| - 1], events[|events| - 1];
      RunsAreSound(front);
      StepKeeps(After(front).value, e);
      OpenUntilClose(After(front).value, e);
      assert events == front + [e];
    } else {
      NewIsSound();
    }
  }

  lemma NewIsSound()
    ensures Sound(NEW_ACTIVITY)
  {
  }

  lemma OpenUntilClose(a: Activity, e: Event)
    requires Sound(a) && Enabled(a, e)
    ensures Step(a, e).status == Open <==> a.status == Open && e != Close
  {
  }

  /** The number of release calls in a run. */
  function Count(events: seq<Event>, e: Event): nat {
    if events == [] then 0 else Count(events[..|events| - 1], e) + if events[|events| - 1] == e then 1 else 0
  }

  lemma {:induction false} ReleasesAreCounted(events: seq<Event>)
    requires After(events).Some?
    ensures Count(events, BeginRelease) == After(events).value.releases
  {
    if events != [] {
      ReleasesAreCounted(events[..|events| - 1]);
    }
  }

  /**
   Over any run: the release is called at most once; at that moment everything admitted has
   settled; and no admission after a close succeeds.
   */
  lemma ReleaseOnceAfterEverything(events: seq<Event>, i: nat)
    requires After(events).Some? && i < |events|
    ensures Count(events, BeginRelease) <= 1
    ensures After(events[..i]).Some?
    ensures events[i] == BeginRelease ==> AllSettled(After(events[..i]).value)
    ensures (events[i] == Run || events[i] == Acquire) ==>
              (Refuses(After(events[..i]).value, events[i]) <==> Close in events[..i])
  {
    hide Sound;
    PrefixPossible(events, i);
    PrefixPossible(events, i + 1);
    assert events[..i + 1][..i] == events[..i];
    RunsAreSound(events);
    RunsAreSound(events[..i]);
    ReleasesAreCounted(events);
    ReleaseWaitsForEverything(After(events).value);
    ReleaseWaitsForEverything(After(events[..i]).value);
  }

  /**
   A task that passes a check at `i` and another one at `j` is refused midway exactly when a
   close falls between the two. A preview passes one for its capture and one for each of
   its three digests, so it can be; a settlement passes only one (RuntimeWork).
   */
  lemma RefusedMidway(events: seq<Event>, i: nat, j: nat)
    requires After(events).Some? && i < j < |events| && events[i] == Run && events[j] == Run
    ensures After(events[..i]).Some? && After(events[..j]).Some?
    ensures (!Refuses(After(events[..i]).value, Run) && Refuses(After(events[..j]).value, Run))
       <==> Close !in events[..i] && Close in events[i + 1..j]
  {
    hide Sound, Step, Enabled;
    ReleaseOnceAfterEverything(events, i);
    ReleaseOnceAfterEverything(events, j);
    assert events[..j] == events[..i] + [events[i]] + events[i + 1..j];
  }

  /**
   A fork or a strand opening takes its lease and its admission without an await between
   them, so it is admitted or refused as a whole.
   */
  lemma ForkIsAdmittedWhole(events: seq<Event>, i: nat)
    requires After(events).Some? && i + 1 < |events| && events[i] == Acquire && events[i + 1] == Run
    ensures After(events[..i]).Some? && After(events[..i + 1]).Some?
    ensures Refuses(After(events[..i + 1]).value, Run) <==> Refuses(After(events[..i]).value, Acquire)
  {
    hide Sound, Step, Enabled;
    ReleaseOnceAfterEverything(events, i);
    ReleaseOnceAfterEverything(events, i + 1);
    assert events[..i + 1] == events[..i] + [events[i]];
  }

  /** A preview whose capture was admitted can have its first digest refused. */
  lemma PreviewInterrupted()
    ensures var events := [Run, Begin(0), Close, Settle(0), Run];
            && After(events).Some?
            && After(events[..4]).Some? && Refuses(After(events[..4]).value, Run)
  {
    var events := [Run, Begin(0), Close, Settle(0), Run];
    assert events[..5] == events && events[..0] == [];
    assert events[..5][..4] == events[..4] && events[..4][..3] == events[..3];
    assert events[..3][..2] == events[..2] && events[..2][..1] == events[..1] && events[..1][..0] == [];
    var one := Step(NEW_ACTIVITY, Run);
    assert events[..1][0] == Run && After(events[..0]) == Some(NEW_ACTIVITY);
    assert After(events[..1]) == Some(one) && one.entries == [Scheduled];
    var two := Step(one, Begin(0));
    assert After(events[..2]) == Some(two) && two.entries == [Running];
  }

  // -------------------------------------------------------------------- class

  /** Promises are numbered in the order they were tracked. */
  class ActivityTracker {
    var active: set<nat>
    var closing: bool
    var state: Status
    ghost var activity: Activity

    ghost predicate Valid()
      reads this
    {
      && Sound(activity)
      && active == activity.active && state == activity.status && closing == activity.awaited.Some?
    }

    constructor ()
      ensures Valid() && activity == NEW_ACTIVITY
    {
      active, closing, state, activity := {}, false, Open, NEW_ACTIVITY;
    }

    /** `run` up to its return; None is the closed error. */
    method Run(promise: nat) returns (admitted: bool)
      requires Valid() && promise == |activity.entries|
      modifies this
      ensures Valid() && activity == Step(old(activity), Event.Run)
      ensures admitted <==> old(state) == Open
    {
      StepKeeps(activity, Event.Run);
      activity := Step(activity, Event.Run);
      if state != Open {
        return false;
      }
      active := active + {promise};
      admitted := true;
    }

    method Acquire(promise: nat) returns (admitted: bool)
      requires Valid() && promise == |activity.entries|
      modifies this
      ensures Valid() && activity == Step(old(activity), Event.Acquire)
      ensures admitted <==> old(state) == Open
    {
      StepKeeps(activity, Event.Acquire);
      activity := Step(activity, Event.Acquire);
      if state != Open {
        return false;
      }
      active := active + {promise};
      admitted := true;
    }

    /** The settlement callback of a tracked promise. */
    method Untrack(promise: nat)
      requires Valid() && Enabled(activity, Event.Untrack(promise))
      modifies this
      ensures Valid() && activity == Step(old(activity), Event.Untrack(promise))
    {
      StepKeeps(activity, Event.Untrack(promise));
      activity := Step(activity, Event.Untrack(promise));
      active := active - {promise};
    }

    /** `close` up to its first await; returns what it will wait for. */
    method Close() returns (awaited: Option<set<nat>>)
      requires Valid()
      modifies this
      ensures Valid() && activity == Step(old(activity), Event.Close)
      ensures awaited == if old(closing) then None else Some(old(active))
    {
      StepKeeps(activity, Event.Close);
      activity := Step(activity, Event.Close);
      if closing {
        return None;
      }
      state, closing := Closing, true;
      awaited := Some(active);
    }

    /** The `finally` after the release has returned or thrown. */
    method FinishClose()
      requires Valid() && Enabled(activity, Event.EndRelease)
      modifies this
      ensures Valid() && activity == Step(old(activity), Event.EndRelease)
    {
      StepKeeps(activity, Event.EndRelease);
      activity := Step(activity, Event.EndRelease);
      state := Closed;
    }
  }
}
