/**
 The report stream of internal/activity/delivery.go over the ring: which minutes
 are accounted for, what the newest report of a minute still misses, when a
 minute is corrected, and the clock lease.
 */
module ActivityStream {
  import opened ActivityLog
  import opened ActivityReport
  import opened ActivityRing
  import opened Wrappers

  datatype Delivery = Delivery(
    boot: string, startedAt: int, sequence: nat, next: nat, pending: Option<Report>, started: nat)

  const UNDELIVERED := Delivery("", 0, 0, 0, None, 0)

  datatype Observation = Observation(unix: int, aligned: bool)

  /** Everything that happened since the last disable. */
  datatype Past = Past(
    log: seq<Rec>,                   // records taken
    refused: seq<Rec>,               // records too old when they came
    issued: seq<Report>,             // reports of this boot, in order
    reach: seq<nat>,                 // `next` after each of them
    first: nat,                      // `next` when the boot began
    observations: seq<Observation>,  // clock observations
    leaseFrom: nat,                  // where the present lease began
    corrections: nat,                // corrections issued since the last record
    seen: seq<nat>,                  // how many records each report could count
    hidden: seq<bool>,               // its slot was already taken
    missed: set<nat>)                // minutes that lost their slot while marked, and not reported since

  const NOTHING := Past([], [], [], [], 0, [], 0, 0, [], [], {})

  ghost predicate RingInvariant(slots: seq<Slot>, latest: nat, unalignedUntil: int, past: Past) {
    && RingRefinesLog(slots, latest, past.log)
    && unalignedUntil <= latest + WINDOW
    && (forall i :: 0 <= i < |past.refused| ==> Minute(past.refused[i].unix) + 2 * WINDOW <= unalignedUntil)
    && past.corrections + DirtyCount(slots) <= 3
  }

  // --- when a report is due and what it answers for ------------------------------

  predicate IsGap(unix: int, at: nat) {
    unix / 60 * 60 - 120 - at >= WINDOW
  }

  /** A gap report skips to the newest finished minute, a correction stays, a normal one moves on. */
  function NextAfter(unix: int, at: nat, correction: bool, next: nat): int {
    if IsGap(unix, at) then unix / 60 * 60 - 120 else if correction then next else next + 60
  }

  /** Where the span of a report ends: a gap report answers for all it skips. */
  function SpanEnd(unix: int, at: nat): int {
    if IsGap(unix, at) then unix / 60 * 60 - 120 else at + 60
  }

  /** No late or backward time is in force. */
  predicate ClockTrusted(unix: int, latest: nat, unalignedUntil: int) {
    unix >= unalignedUntil && unix / 60 * 60 >= latest
  }

  /** The minute lies inside the boot and no clock trouble is in force. */
  predicate Settled(unix: int, at: nat, started: nat, latest: nat, unalignedUntil: int) {
    at >= started && ClockTrusted(unix, latest, unalignedUntil)
  }

  // ---------------------------------------------------------------------------
  // No minute is skipped in silence
  // ---------------------------------------------------------------------------

  /** Entry `i` of the stream answers for minute `m`. */
  predicate Covers(issued: seq<Report>, reach: seq<nat>, i: nat, m: nat)
    requires |issued| == |reach| && i < |issued|
  {
    issued[i].minute <= m < reach[i]
  }

  /** A report answers for its own minute, or for more only as an explicit gap. */
  predicate IsEntry(r: Report, reach: nat) {
    && r.minute % 60 == 0
    && (reach == r.minute + 60 || (reach > r.minute + 60 && !r.complete && r.dropped >= 1))
  }

  /** Minute `m` has its own report, or lies in the span of an explicit gap report. */
  ghost predicate Accounted(issued: seq<Report>, reach: seq<nat>, m: nat)
    requires |issued| == |reach|
  {
    exists i :: 0 <= i < |issued| && Covers(issued, reach, i, m)
  }

  lemma AccountedGrows(issued: seq<Report>, reach: seq<nat>, r: Report, upTo: nat, m: nat)
    requires |issued| == |reach| && Accounted(issued, reach, m)
    ensures Accounted(issued + [r], reach + [upTo], m)
  {
    var i :| 0 <= i < |issued| && Covers(issued, reach, i, m);
    assert Covers(issued + [r], reach + [upTo], i, m);
  }

  ghost predicate StreamAccounted(d: Delivery, issued: seq<Report>, reach: seq<nat>, first: nat) {
    && (d.boot == "" ==> d.sequence == 0 && d.pending.None?)
    && |issued| == |reach| == d.sequence
    && (forall i :: 0 <= i < |issued| ==>
          issued[i].sequence == i + 1 && issued[i].boot == d.boot && IsEntry(issued[i], reach[i]))
    && (d.pending.Some? ==> |issued| > 0 && d.pending.value == issued[|issued| - 1])
    && d.next % 60 == 0
    && (d.boot != "" ==> forall m: nat :: m % 60 == 0 && first <= m < d.next ==> Accounted(issued, reach, m))
  }

  /** Issuing a report for the next minute, a correction or a gap loses no minute. */
  lemma IssueKeepsAccount(d: Delivery, issued: seq<Report>, reach: seq<nat>, first: nat, r: Report, upTo: nat,
      next: nat)
    requires StreamAccounted(d, issued, reach, first) && d.boot != ""
    requires r.boot == d.boot && r.sequence == d.sequence + 1 && next % 60 == 0 && IsEntry(r, upTo)
    requires next <= d.next || (r.minute <= d.next && next <= upTo)
    ensures StreamAccounted(d.(sequence := r.sequence, next := next, pending := Some(r)),
              issued + [r], reach + [upTo], first)
  {
    var issued', reach' := issued + [r], reach + [upTo];
    forall m: nat | m % 60 == 0 && first <= m < next ensures Accounted(issued', reach', m) {
      if m < d.next {
        AccountedGrows(issued, reach, r, upTo, m);
      } else {
        assert Covers(issued', reach', |issued|, m);
      }
    }
  }

  // ---------------------------------------------------------------------------
  // What the newest report of a minute still misses
  // ---------------------------------------------------------------------------

  /** The last entry that answers for minute `m`. */
  function Newest(issued: seq<Report>, reach: seq<nat>, m: nat): Option<nat>
    requires |issued| == |reach|
  {
    if issued == [] then None
    else
      var n := |issued| - 1;
      if Covers(issued, reach, n, m) then Some(n) else Newest(issued[..n], reach[..n], m)
  }

  lemma {:induction false} NewestIsLast(issued: seq<Report>, reach: seq<nat>, m: nat)
    requires |issued| == |reach|
    ensures var k := Newest(issued, reach, m);
            if k.Some? then k.value < |issued| && Covers(issued, reach, k.value, m)
                            && forall j :: k.value < j < |issued| ==> !Covers(issued, reach, j, m)
            else !Accounted(issued, reach, m)
  {
    if issued != [] {
      var n := |issued| - 1;
      NewestIsLast(issued[..n], reach[..n], m);
      var k := Newest(issued, reach, m);
      forall j | 0 <= j < n ensures Covers(issued, reach, j, m) == Covers(issued[..n], reach[..n], j, m) {}
      assert k.None? ==> forall i :: 0 <= i < |issued| ==> !Covers(issued, reach, i, m);
    }
  }

  lemma NewestAfterIssue(issued: seq<Report>, reach: seq<nat>, r: Report, upTo: nat, m: nat)
    requires |issued| == |reach|
    ensures Newest(issued + [r], reach + [upTo], m) ==
            if r.minute <= m < upTo then Some(|issued|) else Newest(issued, reach, m)
  {
    assert (issued + [r])[..|issued|] == issued && (reach + [upTo])[..|reach|] == reach;
  }

  /** The last entry that answers for `m` is its own report, not a gap that skips it. */
  predicate Own(past: Past, m: nat, k: nat)
    requires |past.issued| == |past.reach|
  {
    Newest(past.issued, past.reach, m) == Some(k) && k < |past.issued| && past.issued[k].minute == m
  }

  /** Payload of minute `m` was recorded after the first `n` records. */
  ghost predicate Late(log: seq<Rec>, n: nat, m: nat) {
    exists i :: n <= i < |log| && Minute(log[i].unix) == m
  }

  /** What report `k` was frozen from: the log of that moment, or nothing if the slot was already taken. */
  function FrozenContent(past: Past, k: nat): Content
    requires k < |past.issued| == |past.seen| == |past.hidden| && past.seen[k] <= |past.log|
  {
    if past.hidden[k] then EMPTY else Fold(past.log[..past.seen[k]], past.issued[k].minute)
  }

  ghost predicate EntryKept(slots: seq<Slot>, past: Past, k: nat)
    requires |slots| == 3 && k < |past.issued| == |past.seen| == |past.hidden| == |past.reach|
  {
    && past.seen[k] <= |past.log|
    && ListsContent(past.issued[k], FrozenContent(past, k), past.reach[k] != past.issued[k].minute + 60)
    && (past.hidden[k] ==> Overtaken(slots, past.issued[k].minute))
  }

  /** Every report says what its minute held when it was frozen. */
  ghost predicate Archived(slots: seq<Slot>, past: Past) {
    && |slots| == 3 && |past.issued| == |past.seen| == |past.hidden| == |past.reach|
    && (forall k :: 0 <= k < |past.issued| ==> EntryKept(slots, past, k))
    && (forall i :: 0 <= i < |past.log| ==> past.log[i].up > 0 || past.log[i].down > 0)
  }

  /** The newest own report of `m` misses payload exactly if the mark is set, or was when the slot was taken. */
  ghost predicate MarkIsTrue(slots: seq<Slot>, past: Past, m: nat, k: nat)
    requires |slots| == 3 && k < |past.seen|
  {
    Late(past.log, past.seen[k], m) <==> Marked(slots, m) || m in past.missed
  }

  ghost predicate Tracked(slots: seq<Slot>, next: nat, past: Past)
    requires |slots| == 3 && |past.issued| == |past.reach| == |past.seen|
  {
    && (forall m :: m in past.missed ==> Overtaken(slots, m))
    && forall m: nat, k: nat ::
         m % 60 == 0 && past.first <= m < next && Own(past, m, k) ==> MarkIsTrue(slots, past, m, k)
  }

  lemma {:induction false} NothingLateNothingNew(log: seq<Rec>, n: nat, m: nat)
    requires n <= |log| && !Late(log, n, m)
    ensures Fold(log, m) == Fold(log[..n], m)
  {
    if n < |log| {
      var front := log[..|log| - 1];
      assert Minute(log[|log| - 1].unix) != m;
      assert forall i :: n <= i < |front| ==> front[i] == log[i];
      NothingLateNothingNew(front, n, m);
      assert front[..n] == log[..n];
    } else {
      assert log[..n] == log;
    }
  }

  /** Late payload shows in the sums. */
  lemma {:induction false} LateAddsUp(log: seq<Rec>, n: nat, i: nat, m: nat)
    requires n <= i < |log| && Minute(log[i].unix) == m
    ensures var id := log[i].id;
            UpSum(log, m, id) >= UpSum(log[..n], m, id) + log[i].up
            && DownSum(log, m, id) >= DownSum(log[..n], m, id) + log[i].down
  {
    var front, id := log[..|log| - 1], log[i].id;
    assert front[..n] == log[..n];
    if i < |front| {
      LateAddsUp(front, n, i, m);
    } else {
      SumsGrow(front, n, m, id);
    }
  }

  lemma {:induction false} SumsGrow(log: seq<Rec>, n: nat, m: nat, id: Identity)
    requires n <= |log|
    ensures UpSum(log, m, id) >= UpSum(log[..n], m, id) && DownSum(log, m, id) >= DownSum(log[..n], m, id)
  {
    if n < |log| {
      SumsGrow(log[..|log| - 1], n, m, id);
      assert log[..|log| - 1][..n] == log[..n];
    } else {
      assert log[..n] == log;
    }
  }

  /** A loss-free report is no longer exact once payload of its minute has come after it. */
  lemma LatePayloadSpoils(r: Report, c: Content, log: seq<Rec>, n: nat, i: nat)
    requires ListsContent(r, c, false) && r.dropped == 0 && r.unknown == 0
    requires n <= i < |log| && Minute(log[i].unix) == r.minute && (log[i].up > 0 || log[i].down > 0)
    requires c == EMPTY || c == Fold(log[..n], r.minute)
    ensures !ReportsExactly(r, log)
  {
    var m, id := r.minute, log[i].id;
    assert Hits(log[i], m, id);
    if ReportsExactly(r, log) {
      var x := LogItem(log, m, id);
      var id' :| id' in c.buckets && x == BucketItem(id', c.buckets[id']);
      FoldCountsInFull(log[..n], m, id');
      assert id' == id;
      LateAddsUp(log, n, i, m);
      assert false;
    }
  }

  /**
   Every loss-free report is exact for the whole log exactly if no payload of its
   minute has come since, and its slot was still its own when it was frozen or
   the minute saw no payload at all.
   */
  lemma ReportStaysExactIff(slots: seq<Slot>, past: Past, k: nat)
    requires Archived(slots, past) && k < |past.issued|
    requires past.issued[k].dropped == 0 && past.issued[k].unknown == 0
    ensures var r := past.issued[k];
            ReportsExactly(r, past.log) <==>
            && !Late(past.log, past.seen[k], r.minute)
            && (!past.hidden[k] || forall id :: !Hit(past.log, r.minute, id))
  {
    hide ReportsExactly;
    var r, n := past.issued[k], past.seen[k];
    assert EntryKept(slots, past, k);
    NothingDroppedIff(r, FrozenContent(past, k), past.reach[k] != r.minute + 60);
    if Late(past.log, n, r.minute) {
      var i :| n <= i < |past.log| && Minute(past.log[i].unix) == r.minute;
      LatePayloadSpoils(r, FrozenContent(past, k), past.log, n, i);
    } else {
      NothingLateNothingNew(past.log, n, r.minute);
      if !past.hidden[k] {
        LosslessReportIsExact(r, past.log);
      } else {
        EmptyReportIsExactIff(r, past.log);
      }
    }
  }

  /**
   What every report of the stream says, in terms of the log of its moment. If a
   later minute already had its slot it lists nothing and tells no loss but a gap.
   */
  lemma IssuedReportTellsMinute(slots: seq<Slot>, past: Past, k: nat) returns (counted: set<Identity>)
    requires Archived(slots, past) && k < |past.issued|
    ensures var r, gap := past.issued[k], past.reach[k] != past.issued[k].minute + 60;
            if past.hidden[k] then r.items == [] && r.unknown == 0 && r.dropped == if gap then 1 else 0
            else past.seen[k] <= |past.log| && TellsMinute(r, past.log[..past.seen[k]], gap, counted)
  {
    hide TellsMinute, Fold;
    assert EntryKept(slots, past, k);
    var r, log, gap := past.issued[k], past.log[..past.seen[k]], past.reach[k] != past.issued[k].minute + 60;
    counted := Fold(log, r.minute).buckets.Keys;
    if past.hidden[k] {
      EmptyList(r.items);
      assert UpClamps(EMPTY.buckets) == {} && DownClamps(EMPTY.buckets) == {};
    } else {
      ReportTellsMinute(r, log, gap);
    }
  }

  lemma EmptyReportIsExactIff(r: Report, log: seq<Rec>)
    requires ListsBuckets(r.items, map[])
    ensures ReportsExactly(r, log) <==> forall id :: !Hit(log, r.minute, id)
  {
    EmptyList(r.items);
    if id :| Hit(log, r.minute, id) {
      assert LogItem(log, r.minute, id) !in r.items;
    }
  }

  /**
   The newest own report of a reported minute, in every reachable state: payload
   that came after it stays unreported exactly if the minute is marked, which the
   next reads repair, or lost its slot while it was marked, which they do not.
   */
  lemma LatePayloadIsMissedIff(slots: seq<Slot>, next: nat, past: Past, m: nat, k: nat)
    requires Archived(slots, past) && Tracked(slots, next, past)
    requires m % 60 == 0 && past.first <= m < next && Own(past, m, k)
    ensures Late(past.log, past.seen[k], m) <==> Marked(slots, m) || m in past.missed
    ensures past.issued[k].dropped == 0 && past.issued[k].unknown == 0 ==>
              (ReportsExactly(past.issued[k], past.log) <==>
               && !Marked(slots, m) && m !in past.missed
               && (!past.hidden[k] || forall id :: !Hit(past.log, m, id)))
  {
    hide ReportsExactly, EntryKept;
    assert MarkIsTrue(slots, past, m, k);
    if past.issued[k].dropped == 0 && past.issued[k].unknown == 0 {
      ReportStaysExactIff(slots, past, k);
    }
  }

  /** A missed minute takes no more records, and no read goes back to it. */
  lemma MissedMinuteIsLost(slots: seq<Slot>, latest: nat, next: nat, past: Past, m: nat, end: int, at: nat,
      correction: bool)
    requires RingRefinesLog(slots, latest, past.log) && Archived(slots, past) && Tracked(slots, next, past)
    requires m in past.missed && m % 60 == 0 && m < next && IsDue(slots, next, end, at, correction)
    ensures latest - m >= WINDOW && at != m
  {
    assert Overtaken(slots, m);
    if latest - m < WINDOW {
      RetainedMinuteIsHeld(slots, latest, past.log, m);
      assert false;
    }
  }

  /**
   With nothing marked, the newest own report of every retained minute is, if
   loss-free, exact for the whole log.
   */
  lemma UnmarkedMinutesAreExact(slots: seq<Slot>, latest: nat, next: nat, past: Past, m: nat, k: nat)
    requires RingRefinesLog(slots, latest, past.log) && Archived(slots, past) && Tracked(slots, next, past)
    requires m % 60 == 0 && past.first <= m < next && latest - m < WINDOW && !Marked(slots, m)
    requires Own(past, m, k) && past.issued[k].dropped == 0 && past.issued[k].unknown == 0
    ensures ReportsExactly(past.issued[k], past.log)
  {
    hide ReportsExactly, ListsContent;
    RetainedMinuteIsHeld(slots, latest, past.log, m);
    assert EntryKept(slots, past, k);
    LatePayloadIsMissedIff(slots, next, past, m, k);
  }

  // --- how records and reports move the marks ----------------------------------

  function Recorded(past: Past, r: Rec, slots: seq<Slot>): Past
    requires |slots| == 3
  {
    past.(log := past.log + [r], corrections := 0, missed := past.missed + TakenWhileMarked(slots, Minute(r.unix)))
  }

  function Issued(past: Past, r: Report, upTo: nat, slots: seq<Slot>, corrections: nat): Past
    requires |slots| == 3
  {
    past.(issued := past.issued + [r], reach := past.reach + [upTo], corrections := corrections,
          seen := past.seen + [|past.log|], hidden := past.hidden + [Overtaken(slots, r.minute)],
          missed := set m | m in past.missed && !(r.minute <= m < upTo))
  }

  /** Refusals and clock observations are no part of it. */
  lemma OtherHistoryIsNoMatter(slots: seq<Slot>, next: nat, past: Past, past': Past)
    requires Archived(slots, past) && Tracked(slots, next, past)
    requires past' == past.(refused := past'.refused, observations := past'.observations, leaseFrom := past'.leaseFrom)
    ensures Archived(slots, past') && Tracked(slots, next, past')
  {
    hide ListsContent;
    forall k | 0 <= k < |past.issued| ensures EntryKept(slots, past', k) {
      assert EntryKept(slots, past, k);
    }
    forall m: nat, k: nat | m % 60 == 0 && past.first <= m < next && Own(past', m, k)
      ensures MarkIsTrue(slots, past', m, k)
    {
      assert Own(past, m, k) && MarkIsTrue(slots, past, m, k);
    }
  }

  lemma TakingKeepsOvertaken(slots: seq<Slot>, slots': seq<Slot>, at: nat, reported: bool, m: nat)
    requires TakesOver(slots, slots', at, reported) && Overtaken(slots, m)
    ensures Overtaken(slots', m)
  {
  }

  lemma RecordKeepsArchive(slots: seq<Slot>, slots': seq<Slot>, past: Past, r: Rec, reported: bool)
    requires Archived(slots, past) && TakesOver(slots, slots', Minute(r.unix), reported) && (r.up > 0 || r.down > 0)
    ensures Archived(slots', Recorded(past, r, slots))
  {
    hide ListsContent, Overtaken;
    var past' := Recorded(past, r, slots);
    forall k | 0 <= k < |past.issued| ensures EntryKept(slots', past', k) {
      assert EntryKept(slots, past, k);
      assert past'.log[..past.seen[k]] == past.log[..past.seen[k]];
      if past.hidden[k] {
        TakingKeepsOvertaken(slots, slots', Minute(r.unix), reported, past.issued[k].minute);
      }
    }
  }

  lemma LateAfterRecord(log: seq<Rec>, r: Rec, n: nat, m: nat)
    requires n <= |log|
    ensures Late(log + [r], n, m) <==> Late(log, n, m) || Minute(r.unix) == m
  {
    var log' := log + [r];
    assert forall i :: 0 <= i < |log| ==> log'[i] == log[i];
    assert log'[|log|] == r;
  }

  /** A record marks its minute if that was reported, and a marked minute that loses its slot is missed. */
  lemma RecordKeepsTracking(slots: seq<Slot>, slots': seq<Slot>, latest: nat, past: Past, next: nat, r: Rec,
      reported: bool)
    requires RingRefinesLog(slots, latest, past.log) && latest - Minute(r.unix) < WINDOW
    requires Archived(slots, past) && Tracked(slots, next, past)
    requires TakesOver(slots, slots', Minute(r.unix), reported)
    requires past.issued != [] ==> (reported <==> Minute(r.unix) < next)
    ensures Tracked(slots', next, Recorded(past, r, slots))
  {
    var past', at := Recorded(past, r, slots), Minute(r.unix);
    hide ListsContent, HeldInFull;
    forall m | m in past'.missed ensures Overtaken(slots', m) {
      if m in past.missed {
        TakingKeepsOvertaken(slots, slots', at, reported, m);
      }
    }
    forall m: nat, k: nat | m % 60 == 0 && past.first <= m < next && Own(past', m, k)
      ensures MarkIsTrue(slots', past', m, k)
    {
      assert Own(past, m, k) && MarkIsTrue(slots, past, m, k) && EntryKept(slots, past, k);
      LateAfterRecord(past.log, r, past.seen[k], m);
      assert m != at ==> (Marked(slots', m) || m in past'.missed <==> Marked(slots, m) || m in past.missed) by {
        RetainedMinuteIsHeld(slots, latest, past.log, at);
      }
    }
  }

  lemma IssueKeepsArchive(slots: seq<Slot>, slots': seq<Slot>, latest: nat, past: Past, r: Report, upTo: nat,
      corrections: nat)
    requires RingRefinesLog(slots, latest, past.log) && Archived(slots, past) && SameMinutes(slots, slots')
    requires IsEntry(r, upTo) && FrozenFrom(slots, r, upTo != r.minute + 60)
    ensures Archived(slots', Issued(past, r, upTo, slots, corrections))
  {
    hide ListsContent;
    var past' := Issued(past, r, upTo, slots, corrections);
    forall k | 0 <= k < |past'.issued| ensures EntryKept(slots', past', k) {
      if k < |past.issued| {
        assert EntryKept(slots, past, k);
      } else {
        assert past.log[..|past.log|] == past.log;
        assert HeldInFull(slots, past.log, r.minute);
      }
    }
  }

  /** A report clears the mark of its own minute and answers for every minute of its span. */
  lemma IssueKeepsTracking(slots: seq<Slot>, slots': seq<Slot>, past: Past, r: Report, upTo: nat, next: nat, next': nat,
      corrections: nat)
    requires Archived(slots, past) && Tracked(slots, next, past) && SameMinutes(slots, slots') && IsEntry(r, upTo)
    requires forall m: nat :: Marked(slots', m) <==> Marked(slots, m) && m != r.minute
    requires next % 60 == 0 && (next' <= next || (r.minute <= next && next' <= upTo))
    ensures Tracked(slots', next', Issued(past, r, upTo, slots, corrections))
  {
    hide ListsContent;
    var past' := Issued(past, r, upTo, slots, corrections);
    forall m: nat, k: nat | m % 60 == 0 && past.first <= m < next' && Own(past', m, k)
      ensures MarkIsTrue(slots', past', m, k)
    {
      NewestAfterIssue(past.issued, past.reach, r, upTo, m);
      if !(r.minute <= m < upTo) {
        NewestIsLast(past.issued, past.reach, m);
        assert Own(past, m, k) && MarkIsTrue(slots, past, m, k);
      }
    }
  }

  // ---------------------------------------------------------------------------
  // The clock lease
  // ---------------------------------------------------------------------------

  /** From `from` on, every observation is positive and at most 45 s after the last. */
  ghost predicate Unbroken(obs: seq<Observation>, from: nat) {
    && from < |obs|
    && (forall i :: from <= i < |obs| ==> obs[i].aligned)
    && (forall i, j :: from <= i && j == i + 1 < |obs| ==> obs[j].unix <= obs[i].unix + 45)
  }

  /** The chain cannot be taken further back; an observation at time 0 counts as none. */
  ghost predicate Longest(obs: seq<Observation>, from: nat) {
    from == 0 || !Unbroken(obs, from - 1) || obs[from - 1].unix == 0
  }

  /** A lease stands for the longest unbroken chain of observations; without a lease there is none. */
  ghost predicate LeaseHeld(since: int, until: int, obs: seq<Observation>, from: nat) {
    if since != 0 then
      Unbroken(obs, from) && Longest(obs, from) && obs[from].unix == since && obs[|obs| - 1].unix + 45 == until
    else
      obs == [] || !obs[|obs| - 1].aligned || (from == |obs| - 1 && obs[from].unix == 0)
  }

  /** An unbroken chain starts no later than the minute and reaches within 45 s of its end. */
  ghost predicate Spans(obs: seq<Observation>, from: nat, m: int) {
    Unbroken(obs, from) && 0 < obs[from].unix <= m && m + 60 <= obs[|obs| - 1].unix + 45
  }

  lemma LeaseExtendsFrom(obs: seq<Observation>, o: Observation, f: nat)
    ensures Unbroken(obs + [o], f) <==>
              o.aligned && (f == |obs| || (Unbroken(obs, f) && o.unix <= obs[|obs| - 1].unix + 45))
  {
    var obs' := obs + [o];
    assert forall i :: 0 <= i < |obs| ==> obs'[i] == obs[i];
    assert obs'[|obs|] == o;
    if f < |obs| {
      if Unbroken(obs', f) {
        forall i, j | f <= i && j == i + 1 < |obs| ensures obs[j].unix <= obs[i].unix + 45 {
          assert obs'[j].unix <= obs'[i].unix + 45;
        }
        assert obs'[|obs|].unix <= obs'[|obs| - 1].unix + 45;
      }
      if Unbroken(obs, f) && o.aligned && o.unix <= obs[|obs| - 1].unix + 45 {
        forall i, j | f <= i && j == i + 1 < |obs'| ensures obs'[j].unix <= obs'[i].unix + 45 {
          if j < |obs| {
            assert obs[j].unix <= obs[i].unix + 45;
          }
        }
      }
    }
  }

  lemma LeaseExtends(obs: seq<Observation>, o: Observation)
    ensures forall f: nat :: Unbroken(obs + [o], f) <==>
              o.aligned && (f == |obs| || (Unbroken(obs, f) && o.unix <= obs[|obs| - 1].unix + 45))
  {
    forall f: nat ensures Unbroken(obs + [o], f) <==>
              o.aligned && (f == |obs| || (Unbroken(obs, f) && o.unix <= obs[|obs| - 1].unix + 45))
    {
      LeaseExtendsFrom(obs, o, f);
    }
  }

  /** Every instant of a spanned minute follows a positive observation by at most 45 s. */
  lemma {:induction false} SpannedMinuteIsCovered(obs: seq<Observation>, from: nat, m: int, t: int)
    requires Spans(obs, from, m) && m <= t <= m + 60
    ensures exists i :: from <= i < |obs| && obs[i].aligned && obs[i].unix <= t <= obs[i].unix + 45
  {
    var i := CoveringObservation(obs, from, t);
  }

  lemma {:induction false} CoveringObservation(obs: seq<Observation>, from: nat, t: int) returns (i: nat)
    requires Unbroken(obs, from) && obs[from].unix <= t <= obs[|obs| - 1].unix + 45
    ensures from <= i < |obs| && obs[i].unix <= t <= obs[i].unix + 45
    decreases |obs| - from
  {
    if from == |obs| - 1 || t < obs[from + 1].unix {
      i := from;
    } else {
      i := CoveringObservation(obs, from + 1, t);
    }
  }

  // ---------------------------------------------------------------------------
  // Corrections
  // ---------------------------------------------------------------------------

  predicate Correctable(s: Slot, end: int, next: nat) {
    s.dirty && s.at <= end && s.at < next
  }

  /** The oldest correctable minute if there is one, and otherwise `next`. */
  ghost predicate IsDue(slots: seq<Slot>, next: nat, end: int, at: nat, correction: bool)
    requires |slots| == 3
  {
    && (forall i :: 0 <= i < 3 && Correctable(slots[i], end, next) ==> correction && at <= slots[i].at)
    && (correction ==> exists i :: 0 <= i < 3 && Correctable(slots[i], end, next) && at == slots[i].at)
    && (!correction ==> at == next)
  }

  method Due(slots: seq<Slot>, next: nat, end: int) returns (at: nat, correction: bool)
    requires |slots| == 3
    ensures IsDue(slots, next, end, at, correction)
  {
    at, correction := next, false;
    for i := 0 to 3
      invariant forall j :: 0 <= j < i && Correctable(slots[j], end, next) ==> correction && at <= slots[j].at
      invariant correction ==> exists j :: 0 <= j < i && Correctable(slots[j], end, next) && at == slots[j].at
      invariant if correction then at < next else at == next
    {
      var s := slots[i];
      if s.dirty && s.at <= end && s.at < at {
        at, correction := s.at, true;
      }
    }
  }

  lemma DueIsMinute(slots: seq<Slot>, latest: nat, log: seq<Rec>, next: nat, end: int, at: nat, correction: bool)
    requires RingRefinesLog(slots, latest, log) && next % 60 == 0
    requires IsDue(slots, next, end, at, correction)
    ensures at % 60 == 0 && at <= next
    ensures correction ==> slots[Index(at)].dirty && slots[Index(at)].at == at
  {
  }

  /** The same minutes with the same content; marks may only be cleared. */
  ghost predicate SameMinutes(slots: seq<Slot>, slots': seq<Slot>) {
    && |slots| == |slots'| == 3
    && forall i :: 0 <= i < 3 ==>
         slots'[i] == slots[i].(dirty := slots'[i].dirty) && (slots'[i].dirty ==> slots[i].dirty)
  }

  /** Clearing the mark of a corrected minute leaves one dirty slot fewer. */
  method ClearMark(slots: seq<Slot>, at: nat, ghost latest: nat, ghost log: seq<Rec>) returns (slots': seq<Slot>)
    requires RingRefinesLog(slots, latest, log)
    ensures RingRefinesLog(slots', latest, log) && SameMinutes(slots, slots')
    ensures var s := slots[Index(at)]; DirtyCount(slots') == DirtyCount(slots) - Count(s.at == at && s.dirty)
    ensures forall m: nat :: Marked(slots', m) <==> Marked(slots, m) && m != at
  {
    slots' := slots;
    var s := slots[at / 60 % 3];
    if s.at == at {
      slots' := slots[at / 60 % 3 := s.(dirty := false)];
      forall m: nat ensures HeldInFull(slots', log, m) {
        assert HeldInFull(slots, log, m);
      }
    }
  }

  function Count(b: bool): nat {
    if b then 1 else 0
  }

  function DirtyCount(slots: seq<Slot>): nat
    requires |slots| == 3
  {
    Count(slots[0].dirty) + Count(slots[1].dirty) + Count(slots[2].dirty)
  }

  /** The minute that is due can be composed. */
  lemma ReadyToFreeze(slots: seq<Slot>, latest: nat, unalignedUntil: int, past: Past, d: Delivery, unix: int, at: nat,
      correction: bool)
    requires RingInvariant(slots, latest, unalignedUntil, past)
    requires StreamAccounted(d, past.issued, past.reach, past.first)
    requires IsDue(slots, d.next, unix / 60 * 60 - 120, at, correction)
    ensures RingRefinesLog(slots, latest, past.log) && at % 60 == 0
    ensures |slots| == 3 && (slots[Index(at)].live || slots[Index(at)] == CLEARED)
    ensures forall id :: id in Held(slots, at).buckets ==> id.source.Network?
  {
    DueIsMinute(slots, latest, past.log, d.next, unix / 60 * 60 - 120, at, correction);
    BucketSourcesAreKnown(slots, latest, past.log, at);
  }

  /** Issuing the report of the minute that is due keeps everything the collector promises. */
  lemma IssueIsSound(slots: seq<Slot>, slots': seq<Slot>, latest: nat, unalignedUntil: int, past: Past, d: Delivery,
      r: Report, unix: int, correction: bool)
    requires RingInvariant(slots, latest, unalignedUntil, past)
    requires StreamAccounted(d, past.issued, past.reach, past.first)
    requires Archived(slots, past) && Tracked(slots, d.next, past) && d.boot != "" && unix >= 120
    requires r.minute <= unix / 60 * 60 - 120 && IsDue(slots, d.next, unix / 60 * 60 - 120, r.minute, correction)
    requires r.boot == d.boot && r.sequence == d.sequence + 1
    requires SpanEnd(unix, r.minute) >= 0 && IsEntry(r, SpanEnd(unix, r.minute))
    requires FrozenFrom(slots, r, IsGap(unix, r.minute))
    requires RingRefinesLog(slots', latest, past.log) && SameMinutes(slots, slots')
    requires var s := slots[Index(r.minute)];
             DirtyCount(slots') == DirtyCount(slots) - Count(s.at == r.minute && s.dirty)
    requires forall m: nat :: Marked(slots', m) <==> Marked(slots, m) && m != r.minute
    ensures var past' := Issued(past, r, SpanEnd(unix, r.minute), slots, past.corrections + Count(correction));
            var next := NextAfter(unix, r.minute, correction, d.next);
            && next >= 0 && RingInvariant(slots', latest, unalignedUntil, past')
            && StreamAccounted(d.(sequence := r.sequence, next := next, pending := Some(r)),
                 past'.issued, past'.reach, past'.first)
            && Archived(slots', past') && Tracked(slots', next, past')
  {
    hide FrozenFrom, SameMinutes, Archived, Tracked, HeldInFull, NoneAfter, Accounted, Overtaken, Marked;
    var upTo, next := SpanEnd(unix, r.minute), NextAfter(unix, r.minute, correction, d.next);
    var corrections := past.corrections + Count(correction);
    DueIsMinute(slots, latest, past.log, d.next, unix / 60 * 60 - 120, r.minute, correction);
    IssueKeepsAccount(d, past.issued, past.reach, past.first, r, upTo, next);
    IssueKeepsArchive(slots, slots', latest, past, r, upTo, corrections);
    IssueKeepsTracking(slots, slots', past, r, upTo, d.next, next, corrections);
  }
}
