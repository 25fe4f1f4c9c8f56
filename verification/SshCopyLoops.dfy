/**
 The copy loops of one SSH user against the cap (internal/agent/ssh_inbounds.go),
 at the grain of single atomic operations: a check loads the four numbers of the
 period one after another, a count adds to the counter and then to the period,
 and an acknowledgement reaches the counter before the period. Any number of
 loops and acknowledgements may run in between.
 */
module SshCopyLoops {
  import opened Sums
  import opened SshQuota
  import opened Wrappers

  /**
   Where a loop stands. `loads` are the loads of its check so far: upload,
   acknowledged upload, download. `downAt` is the download at the first load,
   which the loop itself does not see.
   */
  datatype Loop =
    | Idle
    | Checking(inbound: int, downAt: int, loads: seq<int>)
    | InFlight(inbound: int)
    | Counted(inbound: int, upload: bool, bytes: int)

  /** What an acknowledgement has stored on its counter and still owes the period. */
  datatype Owed = Both(up: int, down: int) | DownOnly(down: int)

  datatype System = System(traffic: Traffic, loops: seq<Loop>, owed: map<int, Owed>)

  datatype Step =
    | Begin(loop: nat, inbound: int)
    | Load(loop: nat)
    | Decide(loop: nat)
    | Unlimited(loop: nat, inbound: int)
    | Count(loop: nat, upload: bool, bytes: int)
    | Post(loop: nat)
    | Stop(loop: nat)
    | Store(inbound: int, checkpoint: Checkpoint)
    | SettleUp(inbound: int)
    | SettleDown(inbound: int)

  function KeyOf(s: System, inbound: int): string
    requires inbound in s.traffic.counters
  {
    s.traffic.counters[inbound].policy.periodKey
  }

  /** The period an inbound of the system is on. */
  function PeriodAt(s: System, inbound: int): Totals
    requires inbound in s.traffic.counters
  {
    PeriodOf(s.traffic, KeyOf(s, inbound))
  }

  function WithLoop(s: System, loop: nat, l: Loop): System
    requires loop < |s.loops|
  {
    s.(loops := s.loops[loop := l])
  }

  function WithTotals(s: System, inbound: int, x: Totals): System
    requires inbound in s.traffic.counters
  {
    s.(traffic := s.traffic.(counters := s.traffic.counters[inbound := s.traffic.counters[inbound].(totals := x)]))
  }

  function WithUsage(s: System, inbound: int, p: Totals): System
    requires inbound in s.traffic.counters
  {
    s.(traffic := WithPeriod(s.traffic, KeyOf(s, inbound), p))
  }

  /** What a check makes of its four loads. */
  function Measured(policy: Policy, loads: seq<int>, ackDown: int): int
    requires |loads| == 3
  {
    policy.baseline + PositiveDifference(loads[0], loads[1]) + PositiveDifference(loads[2], ackDown)
  }

  /** The loop at `i` is on an inbound of the user. */
  predicate Runs(s: System, i: nat) {
    i < |s.loops| && !s.loops[i].Idle? && s.loops[i].inbound in s.traffic.counters
  }

  ghost predicate Next(s: System, step: Step, s': System, chunk: nat) {
    match step
    case Begin(loop, inbound) =>
      && loop < |s.loops| && s.loops[loop].Idle? && inbound in s.traffic.counters
      && !s.traffic.counters[inbound].policy.exceeded && s.traffic.counters[inbound].policy.limit > 0
      && var p := PeriodAt(s, inbound); s' == WithLoop(s, loop, Checking(inbound, p.down, [p.up]))
    case Load(loop) =>
      && Runs(s, loop) && s.loops[loop].Checking? && 1 <= |s.loops[loop].loads| <= 2
      && var l, p := s.loops[loop], PeriodAt(s, s.loops[loop].inbound);
         s' == WithLoop(s, loop, l.(loads := l.loads + [if |l.loads| == 1 then p.ackUp else p.down]))
    case Decide(loop) =>
      && Runs(s, loop) && s.loops[loop].Checking? && |s.loops[loop].loads| == 3
      && var l, policy := s.loops[loop], s.traffic.counters[s.loops[loop].inbound].policy;
         var over := Measured(policy, l.loads, PeriodAt(s, l.inbound).ackDown) >= Cap(policy);
         s' == WithLoop(s, loop, if over then Idle else InFlight(l.inbound))
    case Unlimited(loop, inbound) =>
      && loop < |s.loops| && s.loops[loop].Idle? && inbound in s.traffic.counters
      && !s.traffic.counters[inbound].policy.exceeded && s.traffic.counters[inbound].policy.limit <= 0
      && s' == WithLoop(s, loop, InFlight(inbound))
    case Count(loop, upload, bytes) =>
      && Runs(s, loop) && s.loops[loop].InFlight? && bytes <= chunk
      && var inbound := s.loops[loop].inbound;
         s' == if bytes <= 0 then WithLoop(s, loop, Idle)
               else WithLoop(WithTotals(s, inbound, Plus(s.traffic.counters[inbound].totals, Moving(upload, bytes))),
                             loop, Counted(inbound, upload, bytes))
    case Post(loop) =>
      && Runs(s, loop) && s.loops[loop].Counted?
      && var l := s.loops[loop];
         s' == WithLoop(WithUsage(s, l.inbound, Plus(PeriodAt(s, l.inbound), Moving(l.upload, l.bytes))), loop, Idle)
    case Stop(loop) =>
      loop < |s.loops| && !s.loops[loop].Counted? && s' == WithLoop(s, loop, Idle)
    case Store(inbound, checkpoint) =>
      && inbound in s.traffic.counters && inbound !in s.owed
      && s' == if !Applies(s.traffic.counters[inbound], checkpoint) then s else Stored(s, inbound, checkpoint)
    case SettleUp(inbound) =>
      && inbound in s.traffic.counters && inbound in s.owed && s.owed[inbound].Both?
      && var p := PeriodAt(s, inbound);
         s' == WithUsage(s, inbound, p.(ackUp := p.ackUp + s.owed[inbound].up))
               .(owed := s.owed[inbound := DownOnly(s.owed[inbound].down)])
    case SettleDown(inbound) =>
      && inbound in s.traffic.counters && inbound in s.owed && s.owed[inbound].DownOnly?
      && var p := PeriodAt(s, inbound);
         s' == WithUsage(s, inbound, p.(ackDown := p.ackDown + s.owed[inbound].down)).(owed := s.owed - {inbound})
  }

  function Moving(upload: bool, bytes: int): Totals {
    if upload then Totals(bytes, 0, 0, 0) else Totals(0, bytes, 0, 0)
  }

  /**
   An acknowledgement stores on its counter; what it changed is owed to the
   period. `addTraffic` does not take the counter's lock, so more may be counted
   between its loads; a load that came earlier stores what a smaller checkpoint
   would store now, and checkpoints are arbitrary.
   */
  function Stored(s: System, inbound: int, checkpoint: Checkpoint): System
    requires inbound in s.traffic.counters
  {
    var x := s.traffic.counters[inbound].totals;
    var up, down := Settle(checkpoint.up, x.up, x.ackUp), Settle(checkpoint.down, x.down, x.ackDown);
    WithTotals(s, inbound, x.(ackUp := up, ackDown := down))
    .(owed := s.owed[inbound := Both(up - x.ackUp, down - x.ackDown)])
  }

  /** A run: states joined by steps, in any interleaving. */
  ghost predicate IsRun(states: seq<System>, steps: seq<Step>, chunk: nat) {
    && |states| == |steps| + 1
    && forall i, j :: 0 <= i < |steps| && j == i + 1 ==> Next(states[i], steps[i], states[j], chunk)
  }

  /** All inbounds of the user run under the same, unchanging policy. */
  ghost predicate Under(t: Traffic, policy: Policy) {
    forall i :: i in t.counters ==> t.counters[i].policy == policy
  }

  // ---------------------------------------------------------------------------
  // The cap
  // ---------------------------------------------------------------------------

  /** All bytes ever posted to the period; it never falls. */
  function Posted(p: Totals): int {
    p.up + p.down
  }

  /** The bytes posted when the check began. */
  function Start(l: Loop): int
    requires l.Checking? && l.loads != []
  {
    l.loads[0] + l.downAt
  }

  /** A loop may still post a transfer that its check, begun by `x`, allowed or may allow. */
  predicate Ticket(l: Loop, x: int) {
    l.InFlight? || l.Counted? || (l.Checking? && l.loads != [] && Start(l) <= x)
  }

  function Promised(loops: seq<Loop>, x: int, chunk: nat): nat {
    if loops == [] then 0
    else Promised(loops[..|loops| - 1], x, chunk) + if Ticket(loops[|loops| - 1], x) then chunk else 0
  }

  /** What loops that passed their check may still post. */
  function Ahead(loops: seq<Loop>, chunk: nat): nat {
    if loops == [] then 0
    else
      var last := loops[|loops| - 1];
      Ahead(loops[..|loops| - 1], chunk) + if last.InFlight? || last.Counted? then chunk else 0
  }

  /** A transfer for every loop. */
  function Room(loops: seq<Loop>, chunk: nat): nat {
    |loops| * chunk
  }

  lemma {:induction false} PromisedBound(loops: seq<Loop>, x: int, chunk: nat)
    ensures Ahead(loops, chunk) <= Promised(loops, x, chunk) <= Room(loops, chunk)
  {
    if loops != [] {
      PromisedBound(loops[..|loops| - 1], x, chunk);
      assert |loops| * chunk == (|loops| - 1) * chunk + chunk;
    }
  }

  lemma {:induction false} PromisedMoves(loops: seq<Loop>, i: nat, l: Loop, x: int, chunk: nat)
    requires i < |loops|
    ensures Promised(loops[i := l], x, chunk) ==
            Promised(loops, x, chunk) + (if Ticket(l, x) then chunk else 0) - (if Ticket(loops[i], x) then chunk else 0)
  {
    var n := |loops| - 1;
    if i < n {
      PromisedMoves(loops[..n], i, l, x, chunk);
      assert loops[i := l][..n] == loops[..n][i := l];
    } else {
      assert loops[i := l][..n] == loops[..n];
    }
  }

  /** One loop without a ticket leaves room for its chunk. */
  lemma RoomForOne(loops: seq<Loop>, i: nat, x: int, chunk: nat)
    requires i < |loops| && !Ticket(loops[i], x)
    ensures Promised(loops, x, chunk) + chunk <= Room(loops, chunk)
  {
    PromisedMoves(loops, i, InFlight(0), x, chunk);
    PromisedBound(loops[i := InFlight(0)], x, chunk);
  }

  /** The loads of a check are values the period has had since the check began. */
  predicate Fair(l: Loop, p: Totals, chunk: nat) {
    && (l.Counted? ==> 0 < l.bytes <= chunk)
    && (l.Checking? ==>
          && 1 <= |l.loads| <= 3 && l.loads[0] <= p.up && l.downAt <= p.down
          && (|l.loads| >= 2 ==> l.loads[1] <= p.ackUp)
          && (|l.loads| == 3 ==> l.downAt <= l.loads[2] <= p.down))
  }

  ghost predicate Orderly(s: System, policy: Policy, chunk: nat) {
    && Under(s.traffic, policy)
    && (forall i :: 0 <= i < |s.loops| ==> Fair(s.loops[i], PeriodOf(s.traffic, policy.periodKey), chunk))
    && OwedIsPositive(s.owed)
  }

  /** Since `a` bytes were posted every loop has posted at most the one transfer it had a ticket for. */
  ghost predicate Anchored(loops: seq<Loop>, posted: int, a: int, chunk: nat) {
    a <= posted && forall x :: a <= x <= posted ==> posted - x + Promised(loops, x, chunk) <= Room(loops, chunk)
  }

  /** Nobody has passed a check, and nothing was posted since the checks began. */
  ghost predicate Untouched(loops: seq<Loop>, posted: int) {
    forall i :: 0 <= i < |loops| ==>
      loops[i].Idle? || (loops[i].Checking? && loops[i].loads != [] && Start(loops[i]) == posted)
  }

  /** `anchor` is the latest beginning of a check that was passed. */
  ghost predicate Bounded(s: System, policy: Policy, chunk: nat, initial: int, anchor: Option<int>) {
    var posted := Posted(PeriodOf(s.traffic, policy.periodKey));
    match anchor
    case None => Used(s.traffic, policy) <= initial && Untouched(s.loops, posted)
    case Some(a) => Used(s.traffic, policy) <= Cap(policy) - 1 + posted - a && Anchored(s.loops, posted, a, chunk)
  }

  // --- one loop at a time ------------------------------------------------------

  /** Giving up a ticket, or keeping one, keeps the anchor. */
  lemma TicketKept(loops: seq<Loop>, i: nat, l: Loop, posted: int, a: int, chunk: nat)
    requires Anchored(loops, posted, a, chunk) && i < |loops|
    requires forall x :: Ticket(l, x) && a <= x ==> Ticket(loops[i], x)
    ensures Anchored(loops[i := l], posted, a, chunk)
  {
    hide Promised, Room;
    SameRoom(loops, i, l, chunk);
    var after := loops[i := l];
    forall x | a <= x <= posted ensures posted - x + Promised(after, x, chunk) <= Room(after, chunk) {
      PromisedMoves(loops, i, l, x, chunk);
    }
  }

  lemma SameRoom(loops: seq<Loop>, i: nat, l: Loop, chunk: nat)
    requires i < |loops|
    ensures Room(loops[i := l], chunk) == Room(loops, chunk)
  {
  }

  /** A check that begins now has a ticket only for what is posted from now on. */
  lemma CheckBegins(loops: seq<Loop>, i: nat, l: Loop, posted: int, a: int, chunk: nat)
    requires Anchored(loops, posted, a, chunk) && i < |loops| && loops[i].Idle?
    requires l.Checking? && l.loads != [] && Start(l) == posted
    ensures Anchored(loops[i := l], posted, a, chunk)
  {
    hide Promised, Room;
    SameRoom(loops, i, l, chunk);
    var after := loops[i := l];
    forall x | a <= x <= posted ensures posted - x + Promised(after, x, chunk) <= Room(after, chunk) {
      PromisedMoves(loops, i, l, x, chunk);
      PromisedBound(loops[i := l], x, chunk);
    }
  }

  /** The check understates the usage by no more than was posted since it began. */
  lemma MeasureIsFair(l: Loop, p: Totals, policy: Policy, chunk: nat)
    requires Fair(l, p, chunk) && l.Checking? && |l.loads| == 3
    ensures policy.baseline + Unacknowledged(p) <= Measured(policy, l.loads, p.ackDown) + Posted(p) - Start(l)
    ensures Start(l) <= Posted(p)
  {
  }

  /** A passed check anchors at its beginning. */
  lemma CheckAnchors(loops: seq<Loop>, i: nat, l: Loop, posted: int, anchor: Option<int>, chunk: nat)
    requires i < |loops| && loops[i].Checking? && loops[i].loads != [] && l.InFlight? && Start(loops[i]) <= posted
    requires anchor.Some? ==> anchor.value <= Start(loops[i]) && Anchored(loops, posted, anchor.value, chunk)
    requires anchor.None? ==> Start(loops[i]) == posted
    ensures Anchored(loops[i := l], posted, Start(loops[i]), chunk)
  {
    hide Promised, Room;
    var a := Start(loops[i]);
    SameRoom(loops, i, l, chunk);
    var after := loops[i := l];
    forall x | a <= x <= posted ensures posted - x + Promised(after, x, chunk) <= Room(after, chunk) {
      PromisedMoves(loops, i, l, x, chunk);
      PromisedBound(loops[i := l], x, chunk);
    }
  }

  /** Posting spends a ticket. */
  lemma PostSpends(loops: seq<Loop>, i: nat, posted: int, posted': int, a: int, chunk: nat)
    requires Anchored(loops, posted, a, chunk) && i < |loops| && loops[i].Counted?
    requires posted <= posted' <= posted + chunk
    ensures Anchored(loops[i := Idle], posted', a, chunk)
  {
    hide Promised, Room;
    SameRoom(loops, i, Idle, chunk);
    var after := loops[i := Idle];
    forall x | a <= x <= posted' ensures posted' - x + Promised(after, x, chunk) <= Room(after, chunk) {
      PromisedMoves(loops, i, Idle, x, chunk);
      RoomForOne(loops[i := Idle], i, x, chunk);
    }
  }

  // --- the steps ---------------------------------------------------------------

  /** A step of one loop that keeps or gives up its ticket. */
  lemma LoopStays(s: System, i: nat, l: Loop, policy: Policy, chunk: nat, initial: int, anchor: Option<int>)
    requires Orderly(s, policy, chunk) && Bounded(s, policy, chunk, initial, anchor) && i < |s.loops|
    requires Fair(l, PeriodOf(s.traffic, policy.periodKey), chunk) && KeepsTicket(s.loops[i], l)
    ensures Orderly(WithLoop(s, i, l), policy, chunk) && Bounded(WithLoop(s, i, l), policy, chunk, initial, anchor)
  {
    hide Anchored, Used, PeriodOf;
    if anchor.Some? {
      TicketKept(s.loops, i, l, Posted(PeriodOf(s.traffic, policy.periodKey)), anchor.value, chunk);
    }
  }

  predicate KeepsTicket(was: Loop, l: Loop) {
    match l
    case Idle => true
    case Checking(_, _, loads) => was.Checking? && was.loads != [] && loads != [] && Start(l) == Start(was)
    case InFlight(_) => was.InFlight? || was.Counted?
    case Counted(_, _, _) => was.InFlight? || was.Counted?
  }

  lemma BeginStays(s: System, i: nat, l: Loop, policy: Policy, chunk: nat, initial: int, anchor: Option<int>)
    requires Orderly(s, policy, chunk) && Bounded(s, policy, chunk, initial, anchor) && i < |s.loops|
    requires s.loops[i].Idle?
    requires l.Checking? && |l.loads| == 1 && Fair(l, PeriodOf(s.traffic, policy.periodKey), chunk)
    requires Start(l) == Posted(PeriodOf(s.traffic, policy.periodKey))
    ensures Orderly(WithLoop(s, i, l), policy, chunk) && Bounded(WithLoop(s, i, l), policy, chunk, initial, anchor)
  {
    hide Anchored, Used, PeriodOf;
    if anchor.Some? {
      CheckBegins(s.loops, i, l, Start(l), anchor.value, chunk);
    }
  }

  lemma PassStays(s: System, i: nat, policy: Policy, chunk: nat, initial: int, anchor: Option<int>)
      returns (anchor': Option<int>)
    requires Orderly(s, policy, chunk) && Bounded(s, policy, chunk, initial, anchor) && i < |s.loops|
    requires s.loops[i].Checking? && |s.loops[i].loads| == 3
    requires Measured(policy, s.loops[i].loads, PeriodOf(s.traffic, policy.periodKey).ackDown) < Cap(policy)
    ensures var s' := WithLoop(s, i, InFlight(s.loops[i].inbound));
            Orderly(s', policy, chunk) && Bounded(s', policy, chunk, initial, anchor')
  {
    hide Anchored, Cap, Measured, PeriodOf, Unacknowledged;
    var l, p := s.loops[i], PeriodOf(s.traffic, policy.periodKey);
    MeasureIsFair(l, p, policy, chunk);
    if anchor.Some? && anchor.value >= Start(l) {
      anchor' := anchor;
      TicketKept(s.loops, i, InFlight(l.inbound), Posted(p), anchor.value, chunk);
    } else {
      anchor' := Some(Start(l));
      CheckAnchors(s.loops, i, InFlight(l.inbound), Posted(p), anchor, chunk);
    }
  }

  /** The usage after a change of the period. */
  lemma PeriodReplaced(s: System, inbound: int, p': Totals, policy: Policy)
    requires Under(s.traffic, policy) && inbound in s.traffic.counters
    ensures PeriodAt(s, inbound) == PeriodOf(s.traffic, policy.periodKey)
    ensures PeriodOf(WithUsage(s, inbound, p').traffic, policy.periodKey) == p'
  {
  }

  lemma PostGrows(p: Totals, upload: bool, bytes: nat)
    ensures Unacknowledged(Plus(p, Moving(upload, bytes))) <= Unacknowledged(p) + bytes
  {
  }

  lemma AcknowledgedShrinks(p: Totals, p': Totals)
    requires p' == p.(ackUp := p'.ackUp, ackDown := p'.ackDown) && p.ackUp <= p'.ackUp && p.ackDown <= p'.ackDown
    ensures Unacknowledged(p') <= Unacknowledged(p)
  {
  }

  lemma PostStays(s: System, i: nat, policy: Policy, chunk: nat, initial: int, anchor: Option<int>)
    requires Orderly(s, policy, chunk) && Bounded(s, policy, chunk, initial, anchor) && Runs(s, i)
    requires s.loops[i].Counted?
    ensures var l := s.loops[i];
            var p' := Plus(PeriodAt(s, l.inbound), Moving(l.upload, l.bytes));
            var s' := WithLoop(WithUsage(s, l.inbound, p'), i, Idle);
            Orderly(s', policy, chunk) && Bounded(s', policy, chunk, initial, anchor)
  {
    hide Anchored, Cap, PeriodOf, Unacknowledged;
    var l, p := s.loops[i], PeriodOf(s.traffic, policy.periodKey);
    var p' := Plus(p, Moving(l.upload, l.bytes));
    PeriodReplaced(s, l.inbound, p', policy);
    PostGrows(p, l.upload, l.bytes);
    PostSpends(s.loops, i, Posted(p), Posted(p'), anchor.value, chunk);
  }

  ghost predicate OwedIsPositive(owed: map<int, Owed>) {
    forall i :: i in owed ==> owed[i].down >= 0 && (owed[i].Both? ==> owed[i].up >= 0)
  }

  /** More acknowledged and nothing else: the usage can only fall. */
  lemma AcknowledgedStays(s: System, inbound: int, p': Totals, owed': map<int, Owed>, policy: Policy, chunk: nat,
      initial: int, anchor: Option<int>)
    requires Orderly(s, policy, chunk) && Bounded(s, policy, chunk, initial, anchor) && inbound in s.traffic.counters
    requires var p := PeriodAt(s, inbound);
             p' == p.(ackUp := p'.ackUp, ackDown := p'.ackDown) && p.ackUp <= p'.ackUp && p.ackDown <= p'.ackDown
    requires OwedIsPositive(owed')
    ensures var s' := WithUsage(s, inbound, p').(owed := owed');
            Orderly(s', policy, chunk) && Bounded(s', policy, chunk, initial, anchor)
  {
    hide Anchored, Cap, PeriodOf, Unacknowledged;
    PeriodReplaced(s, inbound, p', policy);
    AcknowledgedShrinks(PeriodAt(s, inbound), p');
  }

  /** Counters may change without the period. */
  lemma CountersStay(s: System, inbound: int, x: Totals, owed': map<int, Owed>, policy: Policy, chunk: nat,
      initial: int, anchor: Option<int>)
    requires Orderly(s, policy, chunk) && Bounded(s, policy, chunk, initial, anchor) && inbound in s.traffic.counters
    requires OwedIsPositive(owed')
    ensures var s' := WithTotals(s, inbound, x).(owed := owed');
            Orderly(s', policy, chunk) && Bounded(s', policy, chunk, initial, anchor)
  {
    hide Anchored, Cap, Unacknowledged;
    var s' := WithTotals(s, inbound, x).(owed := owed');
    assert s'.loops == s.loops && s'.traffic.periods == s.traffic.periods;
  }

  /** The steps of a check. */
  lemma CheckStaysWithinBound(s: System, step: Step, s': System, policy: Policy, chunk: nat, initial: int,
      anchor: Option<int>)
      returns (anchor': Option<int>)
    requires Orderly(s, policy, chunk) && Bounded(s, policy, chunk, initial, anchor) && Next(s, step, s', chunk)
    requires policy.limit > 0 && (step.Begin? || step.Load? || step.Decide? || step.Unlimited? || step.Stop?)
    ensures Orderly(s', policy, chunk) && Bounded(s', policy, chunk, initial, anchor') && |s'.loops| == |s.loops|
  {
    hide Bounded, Cap, PeriodOf;
    anchor' := anchor;
    match step
    case Begin(loop, inbound) =>
      BeginStays(s, loop, s'.loops[loop], policy, chunk, initial, anchor);
    case Load(loop) =>
      LoopStays(s, loop, s'.loops[loop], policy, chunk, initial, anchor);
    case Decide(loop) =>
      if s'.loops[loop].Idle? {
        LoopStays(s, loop, Idle, policy, chunk, initial, anchor);
      } else {
        anchor' := PassStays(s, loop, policy, chunk, initial, anchor);
      }
    case Unlimited(loop, inbound) =>
    case Stop(loop) =>
      LoopStays(s, loop, Idle, policy, chunk, initial, anchor);
  }

  /** The bytes a loop has moved go to its counter. */
  lemma CountStaysWithinBound(s: System, loop: nat, upload: bool, bytes: int, s': System, policy: Policy, chunk: nat,
      initial: int, anchor: Option<int>)
    requires Orderly(s, policy, chunk) && Bounded(s, policy, chunk, initial, anchor)
    requires Next(s, Step.Count(loop, upload, bytes), s', chunk)
    ensures Orderly(s', policy, chunk) && Bounded(s', policy, chunk, initial, anchor) && |s'.loops| == |s.loops|
  {
    hide Bounded, Cap, PeriodOf;
    var inbound := s.loops[loop].inbound;
    LoopStays(s, loop, s'.loops[loop], policy, chunk, initial, anchor);
    if bytes > 0 {
      var x := Plus(s.traffic.counters[inbound].totals, Moving(upload, bytes));
      CountersStay(WithLoop(s, loop, s'.loops[loop]), inbound, x, s.owed, policy, chunk, initial, anchor);
    }
  }

  /** The steps of an acknowledgement. */
  lemma SettlingStaysWithinBound(s: System, step: Step, s': System, policy: Policy, chunk: nat, initial: int,
      anchor: Option<int>)
    requires Orderly(s, policy, chunk) && Bounded(s, policy, chunk, initial, anchor) && Next(s, step, s', chunk)
    requires step.Store? || step.SettleUp? || step.SettleDown?
    ensures Orderly(s', policy, chunk) && Bounded(s', policy, chunk, initial, anchor) && |s'.loops| == |s.loops|
  {
    hide Bounded, Cap;
    match step
    case Store(inbound, checkpoint) =>
      if s' != s {
        CountersStay(s, inbound, s'.traffic.counters[inbound].totals, s'.owed, policy, chunk, initial, anchor);
      }
    case SettleUp(inbound) =>
      AcknowledgedStays(s, inbound, PeriodAt(s', inbound), s'.owed, policy, chunk, initial, anchor);
    case SettleDown(inbound) =>
      AcknowledgedStays(s, inbound, PeriodAt(s', inbound), s'.owed, policy, chunk, initial, anchor);
  }

  /** Every single operation of a loop or an acknowledgement keeps the bound. */
  lemma StepStaysWithinBound(s: System, step: Step, s': System, policy: Policy, chunk: nat, initial: int,
      anchor: Option<int>)
      returns (anchor': Option<int>)
    requires Orderly(s, policy, chunk) && Bounded(s, policy, chunk, initial, anchor) && Next(s, step, s', chunk)
    requires policy.limit > 0
    ensures Orderly(s', policy, chunk) && Bounded(s', policy, chunk, initial, anchor') && |s'.loops| == |s.loops|
  {
    hide Bounded, Orderly, PeriodOf, Cap;
    anchor' := anchor;
    match step
    case Count(loop, upload, bytes) =>
      CountStaysWithinBound(s, loop, upload, bytes, s', policy, chunk, initial, anchor);
    case Post(loop) =>
      PostStays(s, loop, policy, chunk, initial, anchor);
    case Store(_, _) => SettlingStaysWithinBound(s, step, s', policy, chunk, initial, anchor);
    case SettleUp(_) => SettlingStaysWithinBound(s, step, s', policy, chunk, initial, anchor);
    case SettleDown(_) => SettlingStaysWithinBound(s, step, s', policy, chunk, initial, anchor);
    case _ => anchor' := CheckStaysWithinBound(s, step, s', policy, chunk, initial, anchor);
  }

  lemma {:induction false} RunStaysBounded(states: seq<System>, steps: seq<Step>, policy: Policy, chunk: nat, n: nat)
      returns (anchor: Option<int>)
    requires IsRun(states, steps, chunk) && n < |states| && policy.limit > 0 && states[0].owed == map[]
    requires Under(states[0].traffic, policy) && forall i :: 0 <= i < |states[0].loops| ==> states[0].loops[i].Idle?
    ensures Orderly(states[n], policy, chunk) && |states[n].loops| == |states[0].loops|
    ensures Bounded(states[n], policy, chunk, Used(states[0].traffic, policy), anchor)
  {
    hide Bounded, Orderly;
    if n == 0 {
      anchor := None;
      StartIsBounded(states[0], policy, chunk);
    } else {
      anchor := RunStaysBounded(states, steps, policy, chunk, n - 1);
      anchor := StepStaysWithinBound(states[n - 1], steps[n - 1], states[n], policy, chunk,
        Used(states[0].traffic, policy), anchor);
    }
  }

  lemma StartIsBounded(s: System, policy: Policy, chunk: nat)
    requires Under(s.traffic, policy) && s.owed == map[] && forall i :: 0 <= i < |s.loops| ==> s.loops[i].Idle?
    ensures Orderly(s, policy, chunk) && Bounded(s, policy, chunk, Used(s.traffic, policy), None)
  {
    hide Used, PeriodOf;
  }

  /**
   Whatever the interleaving of loads, adds and acknowledgements, k loops that
   start idle never push the user past the cap by more than k transfers, less the
   one byte the check requires.
   */
  lemma OvershootIsBounded(states: seq<System>, steps: seq<Step>, policy: Policy, chunk: nat, n: nat)
    requires IsRun(states, steps, chunk) && n < |states| && policy.limit > 0 && states[0].owed == map[]
    requires Under(states[0].traffic, policy) && forall i :: 0 <= i < |states[0].loops| ==> states[0].loops[i].Idle?
    ensures var initial, ceiling := Used(states[0].traffic, policy), Cap(policy) - 1 + |states[0].loops| * chunk;
            var bound := if initial > ceiling then initial else ceiling;
            Used(states[n].traffic, policy) + Ahead(states[n].loops, chunk) <= bound
  {
    hide Used, Cap, PeriodOf, Orderly, Promised;
    var anchor := RunStaysBounded(states, steps, policy, chunk, n);
    match anchor
    case None => NobodyAhead(states[n].loops, Posted(PeriodOf(states[n].traffic, policy.periodKey)), chunk);
    case Some(a) => PromisedBound(states[n].loops, a, chunk);
  }

  lemma {:induction false} NobodyAhead(loops: seq<Loop>, posted: int, chunk: nat)
    requires Untouched(loops, posted)
    ensures Ahead(loops, chunk) == 0
  {
    if loops != [] {
      NobodyAhead(loops[..|loops| - 1], posted, chunk);
    }
  }

  // ---------------------------------------------------------------------------
  // The books between the operations
  // ---------------------------------------------------------------------------

  function InHandOf(l: Loop): Totals {
    if l.Counted? then Moving(l.upload, l.bytes) else ZERO
  }

  /** Counted on a counter, not yet posted to the period. */
  function InHand(loops: seq<Loop>, f: Field): int {
    if loops == [] then 0 else InHand(loops[..|loops| - 1], f) + Get(InHandOf(loops[|loops| - 1]), f)
  }

  function OwedTotals(o: Owed): Totals {
    match o
    case Both(up, down) => Totals(0, 0, up, down)
    case DownOnly(down) => Totals(0, 0, 0, down)
  }

  ghost function OwedColumn(owed: map<int, Owed>, f: Field): map<int, int> {
    map i | i in owed :: Get(OwedTotals(owed[i]), f)
  }

  /** The period and what is on its way to it make up the counters. */
  ghost predicate Accounted(s: System, key: string, f: Field) {
    Get(PeriodOf(s.traffic, key), f) + InHand(s.loops, f) + Sum(OwedColumn(s.owed, f)) == Total(s.traffic.counters, f)
  }

  ghost predicate InTransit(s: System, policy: Policy) {
    && Under(s.traffic, policy) && (forall i :: i in s.traffic.counters ==> Sane(s.traffic.counters[i].totals))
    && forall f :: Accounted(s, policy.periodKey, f)
  }

  lemma {:induction false} InHandMoves(loops: seq<Loop>, i: nat, l: Loop, f: Field)
    requires i < |loops|
    ensures InHand(loops[i := l], f) == InHand(loops, f) + Get(InHandOf(l), f) - Get(InHandOf(loops[i]), f)
  {
    var n := |loops| - 1;
    if i < n {
      InHandMoves(loops[..n], i, l, f);
      assert loops[i := l][..n] == loops[..n][i := l];
    } else {
      assert loops[i := l][..n] == loops[..n];
    }
  }

  lemma OwedMoves(owed: map<int, Owed>, inbound: int, o: Owed, f: Field)
    ensures Sum(OwedColumn(owed[inbound := o], f)) ==
            Sum(OwedColumn(owed, f)) + Get(OwedTotals(o), f)
            - (if inbound in owed then Get(OwedTotals(owed[inbound]), f) else 0)
  {
    SumUpdate(OwedColumn(owed, f), inbound, Get(OwedTotals(o), f));
    assert OwedColumn(owed[inbound := o], f) == OwedColumn(owed, f)[inbound := Get(OwedTotals(o), f)];
  }

  lemma OwedGone(owed: map<int, Owed>, inbound: int, f: Field)
    requires inbound in owed
    ensures Sum(OwedColumn(owed - {inbound}, f)) == Sum(OwedColumn(owed, f)) - Get(OwedTotals(owed[inbound]), f)
  {
    SumRemove(OwedColumn(owed, f), inbound);
    assert OwedColumn(owed - {inbound}, f) == OwedColumn(owed, f) - {inbound};
  }

  lemma StepAccounts(s: System, step: Step, s': System, chunk: nat, policy: Policy, f: Field)
    requires Under(s.traffic, policy) && Accounted(s, policy.periodKey, f) && Next(s, step, s', chunk)
    ensures Accounted(s', policy.periodKey, f)
  {
    hide Sum, Total, InHand, OwedColumn, Cap, Unacknowledged;
    match step
    case Begin(loop, _) => InHandMoves(s.loops, loop, s'.loops[loop], f);
    case Load(loop) => InHandMoves(s.loops, loop, s'.loops[loop], f);
    case Decide(loop) => InHandMoves(s.loops, loop, s'.loops[loop], f);
    case Unlimited(loop, _) => InHandMoves(s.loops, loop, s'.loops[loop], f);
    case Count(loop, upload, bytes) =>
      var inbound := s.loops[loop].inbound;
      InHandMoves(s.loops, loop, s'.loops[loop], f);
      if bytes > 0 {
        TotalMoves(s.traffic.counters, inbound, s'.traffic.counters[inbound], f);
      }
    case Post(loop) => InHandMoves(s.loops, loop, s'.loops[loop], f);
    case Stop(loop) => InHandMoves(s.loops, loop, s'.loops[loop], f);
    case Store(inbound, checkpoint) =>
      if s' != s {
        TotalMoves(s.traffic.counters, inbound, s'.traffic.counters[inbound], f);
        OwedMoves(s.owed, inbound, s'.owed[inbound], f);
      }
    case SettleUp(inbound) => OwedMoves(s.owed, inbound, s'.owed[inbound], f);
    case SettleDown(inbound) => OwedGone(s.owed, inbound, f);
  }

  lemma StepKeepsTransit(s: System, step: Step, s': System, chunk: nat, policy: Policy)
    requires InTransit(s, policy) && Next(s, step, s', chunk)
    ensures InTransit(s', policy)
  {
    hide Accounted, Cap, Unacknowledged;
    forall f ensures Accounted(s', policy.periodKey, f) {
      StepAccounts(s, step, s', chunk, policy, f);
    }
  }

  /** With nothing in hand and nothing owed, the books of the period balance. */
  lemma NothingMoving(s: System, policy: Policy, f: Field)
    requires Accounted(s, policy.periodKey, f) && s.owed == map[]
    requires forall i :: 0 <= i < |s.loops| ==> !s.loops[i].Counted?
    ensures Get(PeriodOf(s.traffic, policy.periodKey), f) == Total(s.traffic.counters, f)
  {
    NothingInHand(s.loops, f);
    EmptySum(OwedColumn(s.owed, f));
  }

  lemma {:induction false} NothingInHand(loops: seq<Loop>, f: Field)
    requires forall i :: 0 <= i < |loops| ==> !loops[i].Counted?
    ensures InHand(loops, f) == 0
  {
    if loops != [] {
      NothingInHand(loops[..|loops| - 1], f);
    }
  }

  /**
   Over every interleaving the counters are the period plus what is on its way
   to it, so the books balance whenever nothing is.
   */
  lemma {:induction false} QuietBooksBalance(states: seq<System>, steps: seq<Step>, policy: Policy, chunk: nat, n: nat)
    requires IsRun(states, steps, chunk) && n < |states| && InTransit(states[0], policy)
    ensures InTransit(states[n], policy)
    ensures states[n].owed == map[] && (forall i :: 0 <= i < |states[n].loops| ==> !states[n].loops[i].Counted?) ==>
              Consistent(states[n].traffic, policy.periodKey)
  {
    hide Accounted, Total;
    if n > 0 {
      QuietBooksBalance(states, steps, policy, chunk, n - 1);
      StepKeepsTransit(states[n - 1], steps[n - 1], states[n], chunk, policy);
    }
    var s := states[n];
    if s.owed == map[] && forall i :: 0 <= i < |s.loops| ==> !s.loops[i].Counted? {
      forall f ensures Get(PeriodOf(s.traffic, policy.periodKey), f) == Total(s.traffic.counters, f) {
        NothingMoving(s, policy, f);
      }
    }
  }
}
