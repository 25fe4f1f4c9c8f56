/**
 The kernel watchdog of internal/agent/core_watchdog.go: restart with growing
 backoff, forgiveness after a stable stretch, and one attempt per installed
 build. What the host answers is a parameter of each check.
 */
module Watchdog {
  import opened Wrappers

  const SECOND: nat := 1_000_000_000
  const TWO_MINUTES: nat := 120 * SECOND

  /** A build identity prints as a non-empty text once it is known at all. */
  type Build = s: string | s != "" witness "build"

  datatype Verification = Verified(drifted: bool) | Unsupported | Unavailable

  datatype BuildState = BuildUnknown | Current | Stale(installed: Build)

  /** What one check finds. */
  datatype Finding = Skipped | NoConfig | Active(verification: Verification, build: BuildState) | Stopped

  /** How a restart ends; `elapsed` is the time it took to recover. */
  datatype Ending = RestartFailed | CrashedAgain | StillDrifted | StillStale | Recovered(elapsed: nat)

  datatype State =
    | Unset | Running | RuntimeDrift | RuntimeUnreachable | BinaryDrift | BinaryStale | Recovering
    | WaitingForConfig | Backoff | InvalidConfig | RestartFailure | CrashedAfterRestart | RecoveredState

  function BackoffAfter(consecutive: int): nat {
    if consecutive <= 1 then 0
    else if consecutive == 2 then 5 * SECOND
    else if consecutive == 3 then 15 * SECOND
    else if consecutive == 4 then 30 * SECOND
    else TWO_MINUTES
  }

  // ---------------------------------------------------------------------------
  // History
  // ---------------------------------------------------------------------------

  /**
   What a check puts on record: a restart and since when the kernel is up again,
   an attempt refused for an invalid configuration, a stopped kernel left alone
   during backoff, or a kernel found running.
   */
  datatype Event =
    | PlainRestart(at: int, up: Option<int>)
    | BinaryRestart(at: int, build: Build, up: Option<int>)
    | Refused(at: int)
    | Down(at: int)
    | Ran(at: int, current: bool, forgiven: bool)

  predicate IsRestart(e: Event) {
    e.PlainRestart? || e.BinaryRestart?
  }

  predicate IsAttempt(e: Event) {
    IsRestart(e) || e.Refused?
  }

  function RestartTimes(events: seq<Event>): seq<int> {
    if events == [] then []
    else
      var e := events[|events| - 1];
      RestartTimes(events[..|events| - 1]) + if IsRestart(e) then [e.at] else []
  }

  /** The build the last unforgiven binary restart was for, or "". */
  function Latch(events: seq<Event>): string {
    if events == [] then ""
    else
      var e := events[|events| - 1];
      if e.BinaryRestart? then e.build
      else if e.Ran? && e.current then ""
      else Latch(events[..|events| - 1])
  }

  /** Since when the kernel has been up without a break that the watchdog saw. */
  function UpSince(events: seq<Event>): Option<int> {
    if events == [] then None
    else
      var e, before := events[|events| - 1], events[..|events| - 1];
      match e
      case PlainRestart(_, up) => up
      case BinaryRestart(_, _, up) => up
      case Refused(_) => None
      case Down(_) => None
      case Ran(at, _, _) => if UpSince(before).Some? then UpSince(before) else Some(at)
  }

  /** Restarts and refused attempts since the last forgiveness. */
  function Attempts(events: seq<Event>): nat {
    if events == [] then 0
    else
      var e, before := events[|events| - 1], events[..|events| - 1];
      if e.Ran? && e.forgiven then 0 else Attempts(before) + if IsAttempt(e) then 1 else 0
  }

  /** The wait after the `n`-th restart. */
  function Wait(n: nat): nat {
    if n <= 1 then 5 * SECOND else if n == 2 then 15 * SECOND else if n == 3 then 30 * SECOND else 120 * SECOND
  }

  /** Before when no attempt is made. */
  function NextAllowed(events: seq<Event>): Option<int> {
    if events == [] then None
    else
      var e, before := events[|events| - 1], events[..|events| - 1];
      match e
      case PlainRestart(at, _) => Some(at + Wait(Attempts(events)))
      case BinaryRestart(at, _, _) => Some(at + Wait(Attempts(events)))
      case Refused(at) => Some(at + 120 * SECOND)
      case Down(_) => NextAllowed(before)
      case Ran(_, _, forgiven) => if forgiven then None else NextAllowed(before)
  }

  predicate Waiting(events: seq<Event>, now: int) {
    NextAllowed(events).Some? && now < NextAllowed(events).value
  }

  /**
   The kernel counts as up since a restart that brought it up, or since it was
   first found running after a break, and has been found running ever since.
   */
  lemma {:induction false} UpWithoutBreak(events: seq<Event>) returns (k: nat)
    ensures UpSince(events).Some? ==>
              var t := UpSince(events);
              && k < |events| && (forall j :: k < j < |events| ==> events[j].Ran?)
              && if IsRestart(events[k]) then events[k].up == t
                 else events[k].Ran? && Some(events[k].at) == t && UpSince(events[..k]) == None
    ensures UpSince(events).None? ==>
              events == [] || events[|events| - 1].Refused? || events[|events| - 1].Down?
              || (IsRestart(events[|events| - 1]) && events[|events| - 1].up == None)
  {
    k := 0;
    if events != [] {
      var n := |events| - 1;
      k := n;
      if events[n].Ran? && UpSince(events[..n]).Some? {
        k := UpWithoutBreak(events[..n]);
        assert events[..n][..k] == events[..k];
      }
    }
  }

  ghost function AttemptsFrom(events: seq<Event>, from: nat): set<nat> {
    set j | from <= j < |events| && IsAttempt(events[j])
  }

  /** `from` is where the history begins again after the last forgiveness. */
  ghost predicate LastFresh(events: seq<Event>, from: nat) {
    && from <= |events|
    && (from > 0 ==> events[from - 1].Ran? && events[from - 1].forgiven)
    && forall j :: from <= j < |events| ==> !(events[j].Ran? && events[j].forgiven)
  }

  lemma {:induction false} AttemptsAreCounted(events: seq<Event>) returns (from: nat)
    ensures LastFresh(events, from) && Attempts(events) == |AttemptsFrom(events, from)|
  {
    if events == [] {
      from := 0;
      assert AttemptsFrom(events, from) == {};
    } else {
      var n := |events| - 1;
      if events[n].Ran? && events[n].forgiven {
        from := n + 1;
        assert AttemptsFrom(events, from) == {};
      } else {
        from := AttemptsAreCounted(events[..n]);
        assert AttemptsFrom(events, from) ==
               AttemptsFrom(events[..n], from) + if IsAttempt(events[n]) then {n} else {};
      }
    }
  }

  /**
   The backoff of every history: nothing is held back without an attempt since
   the last forgiveness; after the n-th such attempt the next is allowed exactly
   5, 15, 30 and 120 seconds later for n = 1, 2, 3 and from 4 on, and 120 seconds
   after an attempt refused for its configuration.
   */
  lemma {:induction false} NextAttemptIsDue(events: seq<Event>) returns (from: nat, last: nat)
    ensures LastFresh(events, from)
    ensures var n := |AttemptsFrom(events, from)|;
            if n == 0 then NextAllowed(events) == None
            else
              && from <= last < |events| && IsAttempt(events[last])
              && (forall j :: last < j < |events| ==> !IsAttempt(events[j]))
              && NextAllowed(events) ==
                 Some(events[last].at
                      + (if events[last].Refused? || n >= 4 then 120_000_000_000
                         else if n == 3 then 30_000_000_000
                         else if n == 2 then 15_000_000_000
                         else 5_000_000_000))
  {
    from := AttemptsAreCounted(events);
    last := LastAttempt(events);
    if last < |events| {
      AttemptIsFresh(events, from, last);
    }
  }

  lemma AttemptIsFresh(events: seq<Event>, from: nat, last: nat)
    requires LastFresh(events, from) && last < |events| && IsAttempt(events[last])
    requires forall j :: last < j < |events| ==> !IsAttempt(events[j]) && !(events[j].Ran? && events[j].forgiven)
    ensures from <= last
  {
  }

  /** The attempt that decides when the next is allowed, or `|events|` if there is none. */
  lemma {:induction false} LastAttempt(events: seq<Event>) returns (last: nat)
    ensures if Attempts(events) == 0 then last == |events| && NextAllowed(events) == None
            else
              && last < |events| && IsAttempt(events[last])
              && (forall j :: last < j < |events| ==> !IsAttempt(events[j]) && !(events[j].Ran? && events[j].forgiven))
              && NextAllowed(events) ==
                 Some(events[last].at + if events[last].Refused? then 120 * SECOND else Wait(Attempts(events)))
  {
    last := |events|;
    if events != [] {
      var n := |events| - 1;
      if IsAttempt(events[n]) {
        last := n;
      } else if !(events[n].Ran? && events[n].forgiven) {
        last := LastAttempt(events[..n]);
        if last == n {
          last := |events|;
        }
      }
    }
  }

  ghost predicate NeverRelatched(events: seq<Event>) {
    forall j :: 0 <= j < |events| && events[j].BinaryRestart? ==> Latch(events[..j]) != events[j].build
  }

  /** Between two restarts for one build, that build was seen serving or another one was tried. */
  ghost predicate Separated(events: seq<Event>, i: nat, j: nat)
    requires i < j < |events| && events[i].BinaryRestart?
  {
    exists k :: i < k < j && ((events[k].Ran? && events[k].current)
                              || (events[k].BinaryRestart? && events[k].build != events[i].build))
  }

  lemma {:induction false} SameBuildRestartsAreSeparated(events: seq<Event>, i: nat, j: nat)
    requires NeverRelatched(events) && i < j < |events|
    requires events[i].BinaryRestart? && events[j].BinaryRestart? && events[i].build == events[j].build
    ensures Separated(events, i, j)
  {
    if !Separated(events, i, j) {
      LatchHolds(events, i, j);
    }
  }

  lemma {:induction false} LatchHolds(events: seq<Event>, i: nat, j: nat)
    requires i < j <= |events| && events[i].BinaryRestart?
    requires forall k :: i < k < j ==>
               && !(events[k].Ran? && events[k].current)
               && (events[k].BinaryRestart? ==> events[k].build == events[i].build)
    ensures Latch(events[..j]) == events[i].build
  {
    if j > i + 1 {
      LatchHolds(events, i, j - 1);
      assert events[..j][..j - 1] == events[..j - 1];
    }
  }

  /** One more event, and what it does to each view of the history. */
  lemma EventAppended(events: seq<Event>, event: Event)
    requires NeverRelatched(events) && (event.BinaryRestart? ==> event.build != Latch(events))
    ensures NeverRelatched(events + [event])
    ensures RestartTimes(events + [event]) ==
            if IsRestart(event) then RestartTimes(events) + [event.at] else RestartTimes(events)
    ensures Latch(events + [event]) ==
            if event.BinaryRestart? then event.build
            else if event.Ran? && event.current then "" else Latch(events)
    ensures UpSince(events + [event]) ==
            if IsRestart(event) then event.up
            else if event.Ran? then (if UpSince(events).Some? then UpSince(events) else Some(event.at)) else None
    ensures Attempts(events + [event]) ==
            if event.Ran? && event.forgiven then 0 else Attempts(events) + if IsAttempt(event) then 1 else 0
    ensures NextAllowed(events + [event]) ==
            if IsRestart(event) then Some(event.at + Wait(Attempts(events) + 1))
            else if event.Refused? then Some(event.at + 120 * SECOND)
            else if event.Ran? && event.forgiven then None else NextAllowed(events)
  {
    var all := events + [event];
    assert all[..|events|] == events;
    forall j | 0 <= j < |all| && all[j].BinaryRestart? ensures Latch(all[..j]) != all[j].build {
      if j < |events| {
        assert all[..j] == events[..j];
      }
    }
  }

  /** Any five successive restarts span at least two minutes. */
  ghost predicate Paced(times: seq<int>) {
    forall i, j :: 0 <= i && j == i + 4 < |times| ==> times[j] - times[i] >= TWO_MINUTES
  }

  ghost predicate Ordered(times: seq<int>, last: int) {
    && (forall i, j :: 0 <= i < j < |times| ==> times[i] <= times[j])
    && (forall i :: 0 <= i < |times| ==> times[i] <= last)
  }

  /** How the bounded state remembers enough of the restarts to pace the next one. */
  ghost predicate Remembers(times: seq<int>, last: int, consecutive: int, nextAttempt: Option<int>,
      stableSince: Option<int>, sinceReset: nat, resetAt: int) {
    && sinceReset <= consecutive && sinceReset <= |times| && resetAt <= last
    && (stableSince.Some? && |times| > 0 ==> times[|times| - 1] <= stableSince.value)
    && (sinceReset < |times| ==> times[|times| - sinceReset - 1] + TWO_MINUTES <= resetAt)
    && (sinceReset >= 4 ==> nextAttempt.Some? && times[|times| - 1] + TWO_MINUTES <= nextAttempt.value)
  }

  /** A restart that the backoff allows keeps the pace. */
  lemma AllowedRestartIsPaced(times: seq<int>, last: int, consecutive: int, nextAttempt: Option<int>,
      stableSince: Option<int>, sinceReset: nat, resetAt: int, now: int, since: Option<int>)
    requires Ordered(times, last) && Paced(times) && (since.Some? ==> now <= since.value)
    requires Remembers(times, last, consecutive, nextAttempt, stableSince, sinceReset, resetAt)
    requires last <= now && (nextAttempt.Some? ==> nextAttempt.value <= now) && sinceReset < consecutive
    ensures Ordered(times + [now], now) && Paced(times + [now])
    ensures Remembers(times + [now], now, consecutive, Some(now + BackoffAfter(consecutive + 1)), since,
              sinceReset + 1, resetAt)
  {
    var more := times + [now];
    var n := |times|;
    assert forall i :: 0 <= i < n ==> more[i] == times[i];
    if n >= 4 {
      assert times[n - 4] + TWO_MINUTES <= now;
    }
  }

  /** Time passes; a stable stretch of two minutes may wipe the slate. */
  lemma StableStretchForgives(times: seq<int>, last: int, consecutive: int, nextAttempt: Option<int>,
      stableSince: Option<int>, sinceReset: nat, resetAt: int, now: int)
    requires Ordered(times, last) && last <= now
    requires Remembers(times, last, consecutive, nextAttempt, stableSince, sinceReset, resetAt)
    ensures Ordered(times, now)
    ensures var since := if stableSince.Some? then stableSince else Some(now);
            && Remembers(times, now, consecutive, nextAttempt, since, sinceReset, resetAt)
            && (now - since.value >= TWO_MINUTES ==> Remembers(times, now, 0, None, since, 0, now))
  {
  }

  /** Time passes, and an attempt begins. */
  lemma AttemptBegins(times: seq<int>, last: int, consecutive: int, nextAttempt: Option<int>,
      stableSince: Option<int>, sinceReset: nat, resetAt: int, now: int)
    requires Ordered(times, last) && last <= now
    requires Remembers(times, last, consecutive, nextAttempt, stableSince, sinceReset, resetAt)
    ensures Ordered(times, now) && sinceReset <= consecutive
    ensures Remembers(times, now, consecutive, nextAttempt, stableSince, sinceReset, resetAt)
    ensures Remembers(times, now, consecutive, nextAttempt, None, sinceReset, resetAt)
    ensures Remembers(times, now, consecutive + 1, nextAttempt, None, sinceReset, resetAt)
  {
  }

  function StateAfter(ending: Ending): State {
    match ending
    case RestartFailed => RestartFailure
    case CrashedAgain => CrashedAfterRestart
    case StillDrifted => RuntimeDrift
    case StillStale => BinaryStale
    case Recovered(_) => RecoveredState
  }

  /** Since when the kernel is up again after a restart. */
  function UpAfter(ending: Ending, now: int): Option<int> {
    if ending.Recovered? then Some(now + ending.elapsed) else None
  }

  class CoreWatchdog {
    var state: State
    var consecutive: int
    var restartCount: int
    var nextAttempt: Option<int>
    var stableSince: Option<int>
    var binaryRecoveryBuild: string
    ghost var events: seq<Event>
    ghost var last: int         // time of the last check
    ghost var sinceReset: nat   // restarts since the last forgiveness
    ghost var resetAt: int      // when that was

    ghost predicate Paces()
      reads this
    {
      var times := RestartTimes(events);
      && Ordered(times, last) && Paced(times)
      && Remembers(times, last, consecutive, nextAttempt, stableSince, sinceReset, resetAt)
      && restartCount == |times|
    }

    /** The state is what the history says. */
    ghost predicate Recalls()
      reads this
    {
      && consecutive == Attempts(events) && nextAttempt == NextAllowed(events)
      && stableSince == UpSince(events) && binaryRecoveryBuild == Latch(events)
    }

    ghost predicate Valid()
      reads this
    {
      Paces() && Recalls() && NeverRelatched(events)
    }

    constructor (now: int)
      ensures Valid() && events == [] && last == now
    {
      state, consecutive, restartCount := Unset, 0, 0;
      nextAttempt, stableSince, binaryRecoveryBuild := None, None, "";
      events, last, sinceReset, resetAt := [], now, 0, now;
    }

    /** A restart goes on record only where the backoff has run out. */
    method Restart(now: int, ending: Ending, ghost event: Event)
      requires Paces() && NeverRelatched(events) && consecutive == Attempts(events) + 1 && stableSince.None?
      requires consecutive >= sinceReset + 1 && last <= now && (nextAttempt.Some? ==> nextAttempt.value <= now)
      requires IsRestart(event) && event.at == now && event.up == UpAfter(ending, now)
      requires if event.BinaryRestart? then event.build == binaryRecoveryBuild != Latch(events)
               else binaryRecoveryBuild == Latch(events)
      modifies this
      ensures Valid() && events == old(events) + [event] && last == now && state == StateAfter(ending)
    {
      hide Ordered, Paced, Remembers, NeverRelatched, Latch, RestartTimes, Attempts, NextAllowed, UpSince;
      AllowedRestartIsPaced(RestartTimes(events), last, consecutive, nextAttempt, stableSince, sinceReset, resetAt, now,
                            UpAfter(ending, now));
      EventAppended(events, event);
      state := Recovering;
      restartCount := restartCount + 1;
      events, last, sinceReset := events + [event], now, sinceReset + 1;
      match ending {
        case RestartFailed => state := RestartFailure;
        case CrashedAgain => state := CrashedAfterRestart;
        case StillDrifted => state := RuntimeDrift;
        case StillStale => state := BinaryStale;
        case Recovered(elapsed) =>
          state := RecoveredState;
          stableSince := Some(now + elapsed);
      }
      nextAttempt := Some(now + BackoffAfter(consecutive + 1));
    }

    predicate BackingOff(now: int)
      reads this
    {
      nextAttempt.Some? && now < nextAttempt.value
    }

    /** An invalid configuration is never restarted into; it only pushes the next attempt out. */
    method RefuseInvalid(now: int)
      requires Paces() && NeverRelatched(events) && consecutive == Attempts(events) + 1 && stableSince.None?
      requires binaryRecoveryBuild == Latch(events)
      requires last <= now && (nextAttempt.Some? ==> nextAttempt.value <= now)
      modifies this
      ensures Valid() && events == old(events) + [Refused(now)] && last == now && state == InvalidConfig
    {
      hide Paced, NeverRelatched, Latch, RestartTimes, Attempts, NextAllowed, UpSince;
      EventAppended(events, Refused(now));
      state, nextAttempt, last, events := InvalidConfig, Some(now + TWO_MINUTES), now, events + [Refused(now)];
    }

    method RecoverRuntimeDrift(now: int, configValid: bool, ending: Ending)
      requires Valid() && last <= now
      modifies this
      ensures Valid() && last == now
      ensures events == old(events) +
                if Waiting(old(events), now) then []
                else if !configValid then [Refused(now)] else [PlainRestart(now, UpAfter(ending, now))]
      ensures state == if Waiting(old(events), now) then Backoff
                       else if !configValid then InvalidConfig else StateAfter(ending)
    {
      hide Ordered, Remembers, Paced, NeverRelatched, Latch, RestartTimes, Attempts, NextAllowed, UpSince;
      AttemptBegins(RestartTimes(events), last, consecutive, nextAttempt, stableSince, sinceReset, resetAt, now);
      last := now;
      if BackingOff(now) {
        state := Backoff;
        return;
      }
      state, stableSince, consecutive := RuntimeDrift, None, consecutive + 1;
      if !configValid {
        RefuseInvalid(now);
        return;
      }
      Restart(now, ending, PlainRestart(now, UpAfter(ending, now)));
    }

    method RecoverBinaryDrift(now: int, installed: Build, configValid: bool, ending: Ending)
      requires Valid() && last <= now
      modifies this
      ensures Valid() && last == now
      ensures events == old(events) +
                if Latch(old(events)) == installed || Waiting(old(events), now) then []
                else if !configValid then [Refused(now)] else [BinaryRestart(now, installed, UpAfter(ending, now))]
      ensures state == if Latch(old(events)) == installed then BinaryStale
                       else if Waiting(old(events), now) then Backoff
                       else if !configValid then InvalidConfig else StateAfter(ending)
    {
      hide Ordered, Remembers, Paced, NeverRelatched, Latch, RestartTimes, Attempts, NextAllowed, UpSince;
      AttemptBegins(RestartTimes(events), last, consecutive, nextAttempt, stableSince, sinceReset, resetAt, now);
      last := now;
      if binaryRecoveryBuild != "" && binaryRecoveryBuild == installed {
        state := BinaryStale;
        return;
      }
      if BackingOff(now) {
        state := Backoff;
        return;
      }
      state, stableSince, consecutive := BinaryDrift, None, consecutive + 1;
      if !configValid {
        RefuseInvalid(now);
        return;
      }
      binaryRecoveryBuild := installed;
      Restart(now, ending, BinaryRestart(now, installed, UpAfter(ending, now)));
    }

    method RecoverStopped(now: int, configValid: bool, ending: Ending)
      requires Valid() && last <= now
      modifies this
      ensures Valid() && last == now
      ensures events == old(events) +
                [if Waiting(old(events), now) then Down(now)
                 else if !configValid then Refused(now) else PlainRestart(now, UpAfter(ending, now))]
      ensures state == if Waiting(old(events), now) then Backoff
                       else if !configValid then InvalidConfig else StateAfter(ending)
    {
      hide Ordered, Remembers, Paced, NeverRelatched, Latch, RestartTimes, Attempts, NextAllowed, UpSince;
      AttemptBegins(RestartTimes(events), last, consecutive, nextAttempt, stableSince, sinceReset, resetAt, now);
      last, stableSince := now, None;
      if BackingOff(now) {
        EventAppended(events, Down(now));
        state, events := Backoff, events + [Down(now)];
        return;
      }
      consecutive := consecutive + 1;
      if !configValid {
        RefuseInvalid(now);
        return;
      }
      Restart(now, ending, PlainRestart(now, UpAfter(ending, now)));
    }

    /** The kernel serves what is on disk; two stable minutes forgive the past. */
    method NoteRunning(now: int, build: BuildState)
      requires Valid() && last <= now
      modifies this
      ensures Valid() && last == now && state == Running
      ensures events == old(events) +
                [Ran(now, build.Current?,
                     UpSince(old(events)).Some? && now - UpSince(old(events)).value >= 120_000_000_000)]
    {
      hide Ordered, Paced, Remembers, NeverRelatched, Latch, RestartTimes, Attempts, NextAllowed, UpSince;
      StableStretchForgives(RestartTimes(events), last, consecutive, nextAttempt, stableSince,
        sinceReset, resetAt, now);
      ghost var event := Ran(now, build.Current?, stableSince.Some? && now - stableSince.value >= TWO_MINUTES);
      EventAppended(events, event);
      events, last := events + [event], now;
      if build.Current? {
        binaryRecoveryBuild := "";
      }
      state := Running;
      if stableSince.None? {
        stableSince := Some(now);
      }
      if now - stableSince.value >= TWO_MINUTES {
        consecutive, nextAttempt := 0, None;
        sinceReset, resetAt := 0, now;
      }
    }

    /**
     One tick, by what the history says. A stopped kernel, one that runs an older
     configuration, and one that runs an older build not yet tried are attempted
     as soon as the backoff is over; the attempt is a restart exactly if the
     configuration is valid. Nothing else restarts.
     */
    method Check(now: int, finding: Finding, configValid: bool, ending: Ending)
      requires Valid() && last <= now
      modifies this
      ensures Valid()
      ensures finding.Skipped? || finding.NoConfig? ==> events == old(events)
      ensures finding.Stopped? ==>
                events == old(events) +
                  [if Waiting(old(events), now) then Down(now)
                   else if !configValid then Refused(now) else PlainRestart(now, UpAfter(ending, now))]
      ensures finding.Active? && finding.verification == Verified(true) ==>
                events == old(events) +
                  if Waiting(old(events), now) then []
                  else if !configValid then [Refused(now)] else [PlainRestart(now, UpAfter(ending, now))]
      ensures finding.Active? && finding.verification.Unavailable? ==> events == old(events)
      ensures finding.Active? && finding.verification != Verified(true) && !finding.verification.Unavailable? ==>
                events == old(events) +
                  match finding.build
                  case Stale(installed) =>
                    if Latch(old(events)) == installed || Waiting(old(events), now) then []
                    else if !configValid then [Refused(now)]
                    else [BinaryRestart(now, installed, UpAfter(ending, now))]
                  case _ =>
                    [Ran(now, finding.build.Current?,
                         UpSince(old(events)).Some? && now - UpSince(old(events)).value >= 120_000_000_000)]
    {
      hide Paced, NeverRelatched, Latch, RestartTimes, Attempts, NextAllowed, UpSince, Waiting;
      match finding {
        case Skipped =>
        case NoConfig => state := WaitingForConfig;
        case Stopped => RecoverStopped(now, configValid, ending);
        case Active(verification, build) =>
          if verification == Verified(true) {
            RecoverRuntimeDrift(now, configValid, ending);
          } else if verification.Unavailable? {
            state, last := RuntimeUnreachable, now;
          } else if build.Stale? {
            RecoverBinaryDrift(now, build.installed, configValid, ending);
          } else {
            NoteRunning(now, build);
          }
      }
    }
  }
}
