/**
 The collector of internal/activity: a ring of three minutes with capacity
 limits (activity.go) and the report stream that drains it (delivery.go). Ghost
 fields keep the unbounded history the bounded state is proved to stand for.
 */
module ActivityCollector {
  import opened ActivityLog
  import opened ActivityReport
  import opened ActivityRing
  import opened ActivityStream
  import opened DeliveryProtocol
  import opened Wrappers

  class Collector {
    var enabled: bool
    var latest: nat
    var slots: seq<Slot>
    var unalignedUntil: int
    var delivery: Delivery
    var clockSince: int
    var clockUntil: int
    ghost var past: Past

    ghost predicate Valid()
      reads this
    {
      && RingInvariant(slots, latest, unalignedUntil, past)
      && StreamAccounted(delivery, past.issued, past.reach, past.first)
      && LeaseHeld(clockSince, clockUntil, past.observations, past.leaseFrom)
      && Archived(slots, past) && Tracked(slots, delivery.next, past)
    }

    ghost function View(): Endpoint
      reads this
    {
      Endpoint(delivery.boot, delivery.sequence, delivery.pending)
    }

    constructor ()
      ensures Valid() && !enabled && past == NOTHING && View() == UNREAD && delivery == UNDELIVERED
      ensures slots == [CLEARED, CLEARED, CLEARED] && latest == 0 && unalignedUntil == 0
    {
      enabled, latest, unalignedUntil := false, 0, 0;
      delivery, clockSince, clockUntil := UNDELIVERED, 0, 0;
      slots := [CLEARED, CLEARED, CLEARED];
      past := NOTHING;
      ClearedRing();
    }

    /** Disabling forgets everything; enabling keeps what is there. */
    method SetEnabled(on: bool)
      requires Valid()
      modifies this
      ensures Valid() && enabled == on
      ensures !on ==> past == NOTHING && View() == UNREAD
      ensures on ==> past == old(past) && slots == old(slots) && delivery == old(delivery)
      ensures on ==> latest == old(latest) && unalignedUntil == old(unalignedUntil)
    {
      enabled := on;
      if !on {
        delivery, clockSince, clockUntil := UNDELIVERED, 0, 0;
        slots := [CLEARED, CLEARED, CLEARED];
        latest, unalignedUntil := 0, 0;
        past := NOTHING;
        ClearedRing();
      }
    }

    /**
     A record is ignored, refused as too old (which marks the clock unaligned),
     or added to its own minute; a slot is only ever taken from a minute that
     has left the window.
     */
    method Record(id: Identity, unix: int, upload: uint64, download: uint64)
      requires Valid()
      modifies this
      ensures Valid()
      ensures enabled == old(enabled) && delivery == old(delivery)
      ensures clockSince == old(clockSince) && clockUntil == old(clockUntil)
      ensures old(latest) <= latest && (unalignedUntil == old(unalignedUntil) || unalignedUntil == latest + WINDOW)
      ensures
        var moved := id.user > 0 && (upload > 0 || download > 0) && old(enabled);
        if !moved then
          past == old(past) && slots == old(slots) && unalignedUntil == old(unalignedUntil)
        else if unix < 0 then
          past == old(past) && slots == old(slots) && unalignedUntil == latest + WINDOW
        else if old(latest) - Minute(unix) >= WINDOW then
          && past == old(past).(refused := old(past).refused + [Rec(id, unix, upload, download)])
          && slots == old(slots) && unalignedUntil == latest + WINDOW
        else
          && past == Recorded(old(past), Rec(id, unix, upload, download), old(slots))
          && TakesOver(old(slots), slots, Minute(unix), delivery.boot != "" && Minute(unix) < delivery.next)
          && unalignedUntil == old(unalignedUntil)
          && latest == if Minute(unix) > old(latest) then Minute(unix) else old(latest)
    {
      if id.user <= 0 || (upload == 0 && download == 0) {
        return;
      }
      if !enabled {
        return;
      }
      if unix < 0 {
        unalignedUntil := latest + WINDOW;
        return;
      }
      var at := unix / 60 * 60;
      ghost var r := Rec(id, unix, upload, download);
      if latest - at >= WINDOW {
        unalignedUntil := latest + WINDOW;
        OtherHistoryIsNoMatter(slots, delivery.next, past, past.(refused := past.refused + [r]));
        past := past.(refused := past.refused + [r]);
        return;
      }
      Commit(id, unix, upload, download);
    }

    /** The part of Record that gives the event its slot. */
    method Commit(id: Identity, unix: nat, upload: uint64, download: uint64)
      requires Valid() && latest - Minute(unix) < WINDOW && (upload > 0 || download > 0)
      modifies this
      ensures Valid()
      ensures enabled == old(enabled) && delivery == old(delivery) && unalignedUntil == old(unalignedUntil)
      ensures clockSince == old(clockSince) && clockUntil == old(clockUntil)
      ensures latest == if Minute(unix) > old(latest) then Minute(unix) else old(latest)
      ensures past == Recorded(old(past), Rec(id, unix, upload, download), old(slots))
      ensures TakesOver(old(slots), slots, Minute(unix), delivery.boot != "" && Minute(unix) < delivery.next)
    {
      ghost var r, ring, was := Rec(id, unix, upload, download), slots, latest;
      ghost var reported := delivery.boot != "" && Minute(unix) < delivery.next;
      slots, latest := TakeSlot(slots, latest, delivery, id, unix, upload, download, past.log);
      RecordKeepsArchive(ring, slots, past, r, reported);
      RecordKeepsTracking(ring, slots, was, past, delivery.next, r, reported);
      past := Recorded(past, r, ring);
    }

    static method TakeSlot(slots: seq<Slot>, latest: nat, delivery: Delivery, id: Identity, unix: nat, upload: uint64,
        download: uint64, ghost log: seq<Rec>) returns (slots': seq<Slot>, latest': nat)
      requires RingRefinesLog(slots, latest, log) && latest - Minute(unix) < WINDOW
      ensures RingRefinesLog(slots', latest', log + [Rec(id, unix, upload, download)])
      ensures TakesOver(slots, slots', Minute(unix), delivery.boot != "" && Minute(unix) < delivery.next)
      ensures latest' == if Minute(unix) > latest then Minute(unix) else latest
    {
      var at := unix / 60 * 60;
      RetainedMinuteIsHeld(slots, latest, log, at);
      EvictedMinuteIsExpired(slots, latest, log, at);
      var s := slots[at / 60 % 3];
      if !s.live || s.at != at {
        s := Slot(true, at, EMPTY, false);
      }
      if delivery.boot != "" && at < delivery.next {
        s := s.(dirty := true);
      }
      var c := Tally(s.content, id, unix, upload, download);
      RecordKeepsRing(slots, latest, log, Rec(id, unix, upload, download), s.dirty);
      slots' := slots[at / 60 % 3 := s.(content := c)];
      latest' := latest;
      if at > latest {
        latest' := at;
      }
    }

    /**
     Read freezes one report, or hands back the one already frozen.
     A report it freezes is complete only if no record of its minute was refused,
     is aligned exactly if the clock was watched throughout its minute and is
     trusted, and repairs the oldest marked minute before anything new is reported.
     */
    method Read(unix: int, nano: int, nonce: Option<string>, stream: string) returns (result: Option<Report>)
      requires Valid()
      requires nonce.Some? ==> nonce.value != ""
      modifies this
      ensures Valid()
      ensures enabled == old(enabled) && latest == old(latest) && unalignedUntil == old(unalignedUntil)
      ensures past.log == old(past.log) && past.refused == old(past.refused)
      ensures past.observations == old(past.observations)
      ensures ReadStep(old(View()), View(), stream, result)
      ensures old(enabled) && unix >= 120 && old(delivery).pending.Some? ==> result == old(delivery).pending
      ensures old(enabled) && unix >= 120 && old(delivery).pending.None?
              && (if old(delivery).boot == "" then nonce.Some? else old(delivery).next <= unix / 60 * 60 - 120)
              ==> result.Some?
      ensures old(delivery).boot == "" != delivery.boot ==>
                delivery.started == (unix + 59) / 60 * 60 && past.first == unix / 60 * 60 - 120
      ensures result.Some? && old(delivery).pending.Some? ==> past == old(past) && slots == old(slots)
      ensures result.None? ==> slots == old(slots) && past.issued == old(past.issued)
      ensures result.Some? && old(delivery).pending.None? ==>
                && past == Issued(old(past).(first := past.first), result.value,
                             SpanEnd(unix, result.value.minute), old(slots), past.corrections)
                && IsFrozen(old(slots), old(latest), past, result.value, IsGap(unix, result.value.minute))
                && (result.value.complete <==>
                      && result.value.minute >= delivery.started
                      && unix >= unalignedUntil && unix / 60 * 60 >= latest
                      && result.value.dropped == 0 && result.value.unknown == 0)
                && result.value.clock ==
                     if unix < unalignedUntil || unix / 60 * 60 < latest then Unaligned
                     else if Spans(past.observations, past.leaseFrom, result.value.minute) then Aligned
                     else ClockUnknown
      ensures delivery.started ==
              (if old(delivery).boot == "" != delivery.boot then (unix + 59) / 60 * 60 else old(delivery).started)
      ensures SameMinutes(old(slots), slots)
      ensures result.Some? && old(delivery).pending.None? ==>
                var next: int := if old(delivery).boot == "" then unix / 60 * 60 - 120 else old(delivery).next;
                && next >= 0
                && exists correction ::
                     && IsDue(old(slots), next, unix / 60 * 60 - 120, result.value.minute, correction)
                     && past.corrections == old(past).corrections + Count(correction)
      ensures result.Some? && old(delivery).pending.None? ==>
                var m, end := result.value.minute, unix / 60 * 60 - 120;
                var next: int := if old(delivery).boot == "" then end else old(delivery).next;
                && delivery.next == (if end - m >= 180 then end else if m < next then next else next + 60)
                && past.reach == old(past).reach + [if end - m >= 180 then end else m + 60]
    {
      hide RingInvariant, LeaseHeld, SameMinutes, IsFrozen, Spans;
      UnreadSlots(slots, latest, unalignedUntil, past);
      if !enabled || unix < 120 {
        return None;
      }
      if delivery.boot == "" {
        if nonce.None? {
          return None;
        }
        delivery := delivery.(boot := nonce.value, startedAt := nano,
                              next := unix / 60 * 60 - 120, started := (unix + 59) / 60 * 60);
        past := past.(first := delivery.next);
      }
      if delivery.pending.Some? {
        return delivery.pending;
      }
      result := Advance(unix, stream);
    }

    static lemma UnreadSlots(slots: seq<Slot>, latest: nat, unalignedUntil: int, past: Past)
      requires RingInvariant(slots, latest, unalignedUntil, past)
      ensures SameMinutes(slots, slots)
      ensures forall first: nat :: RingInvariant(slots, latest, unalignedUntil, past.(first := first))
    {
    }

    /** Freezes the minute that is due, if it is old enough. */
    method Advance(unix: int, stream: string) returns (result: Option<Report>)
      requires Valid() && unix >= 120 && delivery.boot != "" && delivery.pending.None?
      modifies this
      ensures Valid()
      ensures enabled == old(enabled) && latest == old(latest) && unalignedUntil == old(unalignedUntil)
      ensures past.log == old(past).log && past.refused == old(past).refused && past.first == old(past).first
      ensures past.observations == old(past).observations && past.leaseFrom == old(past).leaseFrom
      ensures ReadStep(old(View()), View(), stream, result)
      ensures result.None? ==> slots == old(slots) && past == old(past) && delivery == old(delivery)
                               && old(delivery).next > unix / 60 * 60 - 120
      ensures result.Some? ==>
                && past == Issued(old(past), result.value,
                             SpanEnd(unix, result.value.minute), old(slots), past.corrections)
                && IsFrozen(old(slots), latest, past, result.value, IsGap(unix, result.value.minute))
                && (result.value.complete <==>
                      && Settled(unix, result.value.minute, delivery.started, latest, unalignedUntil)
                      && result.value.dropped == 0 && result.value.unknown == 0)
                && ClockTold(result.value.clock, ClockTrusted(unix, latest, unalignedUntil),
                     Spans(past.observations, past.leaseFrom, result.value.minute))
                && exists correction ::
                     && IsDue(old(slots), old(delivery).next, unix / 60 * 60 - 120, result.value.minute, correction)
                     && past.corrections == old(past).corrections + Count(correction)
                     && delivery.next == NextAfter(unix, result.value.minute, correction, old(delivery).next)
      ensures delivery.started == old(delivery).started && SameMinutes(old(slots), slots)
    {
      var end := unix / 60 * 60 - 120;
      var at, correction := Due(slots, delivery.next, end);
      if at > end {
        return None;
      }
      ghost var ring := slots;
      var r := Freeze(unix, stream, at, correction);
      if r.complete {
        CompleteReportIsExactIff(ring, latest, past.log, r);
      }
      return Some(r);
    }

    /** What a report that has just been frozen is known to say. */
    static ghost predicate IsFrozen(slots: seq<Slot>, latest: nat, past: Past, r: Report, gap: bool)
      requires |slots| == 3
    {
      && FrozenFrom(slots, r, gap)
      && (r.complete ==> forall i :: 0 <= i < |past.refused| ==> Minute(past.refused[i].unix) != r.minute)
      && (r.complete ==>
            (ReportsExactly(r, past.log) <==> !Overtaken(slots, r.minute) || forall id :: !Hit(past.log, r.minute, id)))
      && (r.complete && latest - r.minute < WINDOW ==> ReportsExactly(r, past.log))
    }

    /** Unaligned in trouble; otherwise aligned exactly if the longest chain spans the minute. */
    static predicate ClockTold(clock: ClockState, trusted: bool, spanned: bool) {
      clock == if !trusted then Unaligned else if spanned then Aligned else ClockUnknown
    }

    method Freeze(unix: int, stream: string, at: nat, correction: bool) returns (r: Report)
      requires Valid() && unix >= 120
      requires delivery.boot != "" && delivery.pending.None?
      requires at <= unix / 60 * 60 - 120 && IsDue(slots, delivery.next, unix / 60 * 60 - 120, at, correction)
      modifies this
      ensures Valid()
      ensures enabled == old(enabled) && latest == old(latest) && unalignedUntil == old(unalignedUntil)
      ensures View() == Endpoint(old(delivery).boot, old(delivery).sequence + 1, Some(r))
      ensures r.boot == old(delivery).boot && r.sequence == old(delivery).sequence + 1 && r.stream == stream
      ensures r.minute == at
      ensures past == Issued(old(past), r, SpanEnd(unix, at), old(slots), old(past).corrections + Count(correction))
      ensures FrozenFrom(old(slots), r, IsGap(unix, at))
      ensures ClockTold(r.clock, ClockTrusted(unix, latest, unalignedUntil),
                Spans(past.observations, past.leaseFrom, r.minute))
      ensures r.complete <==>
                Settled(unix, at, delivery.started, latest, unalignedUntil) && r.dropped == 0 && r.unknown == 0
      ensures delivery.started == old(delivery).started
      ensures delivery.next == NextAfter(unix, at, correction, old(delivery).next)
      ensures SameMinutes(old(slots), slots)
    {
      hide RingInvariant, FrozenFrom, SameMinutes, Settled, Spans, StreamAccounted, LeaseHeld, DirtyCount,
        Archived, Tracked, IsEntry, ClockTold, ClockTrusted, Marked, Overtaken, IsDue, IsGap, SpanEnd;
      var next;
      ReadyToFreeze(slots, latest, unalignedUntil, past, delivery, unix, at, correction);
      r, next := Compose(unix, stream, at, correction);
      ghost var ring, upTo, corrections := slots, SpanEnd(unix, at), past.corrections + Count(correction);
      slots := ClearMark(slots, at, latest, past.log);
      IssueIsSound(ring, slots, latest, unalignedUntil, past, delivery, r, unix, correction);
      delivery := delivery.(sequence := delivery.sequence + 1, next := next, pending := Some(r));
      past := Issued(past, r, upTo, ring, corrections);
    }

    /** The report for minute `at` and the value `next` takes with it. */
    method Compose(unix: int, stream: string, at: nat, correction: bool) returns (r: Report, next: nat)
      requires |slots| == 3 && (slots[Index(at)].live || slots[Index(at)] == CLEARED)
      requires forall id :: id in Held(slots, at).buckets ==> id.source.Network?
      requires LeaseHeld(clockSince, clockUntil, past.observations, past.leaseFrom)
      requires unix >= 120 && at <= unix / 60 * 60 - 120 && at % 60 == 0
      ensures IsEntry(r, SpanEnd(unix, at))
      ensures r.boot == delivery.boot && r.sequence == delivery.sequence + 1 && r.stream == stream && r.minute == at
      ensures FrozenFrom(slots, r, IsGap(unix, at))
      ensures r.complete <==>
                Settled(unix, at, delivery.started, latest, unalignedUntil) && r.dropped == 0 && r.unknown == 0
      ensures ClockTold(r.clock, ClockTrusted(unix, latest, unalignedUntil),
                Spans(past.observations, past.leaseFrom, r.minute))
      ensures next == NextAfter(unix, at, correction, delivery.next)
    {
      var end := unix / 60 * 60 - 120;
      var clock, complete := ClockUnknown, at >= delivery.started;
      if clockSince > 0 && at >= clockSince && at + 60 <= clockUntil {
        clock := Aligned;
      }
      if unix < unalignedUntil || unix / 60 * 60 < latest {
        clock, complete := Unaligned, false;
      }
      var loss: uint64 := 0;
      next := delivery.next;
      if end - at >= WINDOW {
        complete, loss, next := false, 1, end;
      } else if !correction {
        next := next + 60;
      }
      var items, dropped, unknown := Gather(slots, at, loss);
      if dropped > 0 || unknown > 0 {
        complete := false;
      }
      r := Report(delivery.boot, delivery.startedAt, stream, delivery.sequence + 1, at, clock, complete,
                  dropped, unknown, items);
    }

    /** Only the pending report of this boot can be acknowledged, and only once. */
    method Ack(boot: string, sequence: nat) returns (ok: bool)
      requires Valid()
      modifies this`delivery
      ensures Valid()
      ensures View() == AckStep(old(View()), boot, sequence)
      ensures ok <==> View() != old(View())
      ensures delivery == old(delivery).(pending := delivery.pending)
    {
      if delivery.pending.None? {
        return false;
      }
      if delivery.boot != boot || delivery.pending.value.sequence != sequence {
        return false;
      }
      delivery := delivery.(pending := None);
      return true;
    }

    /** One observation of the Controller clock extends, restarts or ends the lease. */
    method AlignClock(unix: int, aligned: bool)
      requires Valid()
      modifies this
      ensures Valid()
      ensures past == old(past).(observations := old(past).observations + [Observation(unix, aligned)],
                                 leaseFrom := past.leaseFrom)
      ensures slots == old(slots) && delivery == old(delivery) && latest == old(latest)
      ensures unalignedUntil == old(unalignedUntil)
      ensures !aligned ==> clockSince == clockUntil == 0
      ensures aligned ==> clockUntil == unix + 45
    {
      hide RingRefinesLog, StreamAccounted, Archived, Tracked;
      ghost var was, from := past, past.leaseFrom;
      if !aligned {
        clockSince, clockUntil := 0, 0;
      } else {
        if clockUntil < unix || clockSince == 0 {
          clockSince := unix;
          from := |past.observations|;
        }
        clockUntil := unix + 45;
      }
      past := past.(observations := past.observations + [Observation(unix, aligned)], leaseFrom := from);
      LeaseExtends(was.observations, Observation(unix, aligned));
      OtherHistoryIsNoMatter(slots, delivery.next, was, past);
    }

    /** The part of Record that touches the minute's maps and counters. */
    static method Tally(content: Content, id: Identity, unix: nat, upload: uint64,
        download: uint64) returns (c: Content)
      ensures c == Apply(content, Rec(id, unix, upload, download))
    {
      var at := unix / 60 * 60;
      c := content;
      if id.source.Unknown? {
        c := c.(unknown := Add(c.unknown, 1));
        return;
      }
      var b := Counters({}, 0, 0);
      if id in c.buckets {
        b := c.buckets[id];
      } else {
        if |c.buckets| >= CAPACITY || AccountSize(c, id.user) >= PER_ACCOUNT_CAPACITY {
          c := c.(dropped := Add(c.dropped, 1));
          return;
        }
        c := c.(accounts := c.accounts[id.user := AccountSize(c, id.user) + 1]);
      }
      var slice := (unix - at) / 5;
      assert slice == Slice(unix);
      b := Counters(b.bits + {slice}, Add(b.up, upload), Add(b.down, download));
      c := c.(buckets := c.buckets[id := b]);
    }
  }

  // ---------------------------------------------------------------------------
  // Complete reports that miss payload
  // ---------------------------------------------------------------------------

  predicate NothingToCorrect(slots: seq<Slot>, next: nat) {
    forall i :: 0 <= i < |slots| ==> slots[i].at < next ==> !slots[i].dirty
  }

  /** The minute a read reports when there is nothing to correct. */
  function Upcoming(delivery: Delivery, unix: int): int {
    if delivery.boot == "" then unix / 60 * 60 - 120 else delivery.next
  }

  /** A read that freezes the minute next in turn. */
  method ReadNext(c: Collector, unix: int) returns (r: Report)
    requires c.Valid() && c.enabled && unix >= 120 && c.delivery.pending.None?
    requires var next := Upcoming(c.delivery, unix);
             0 <= next <= unix / 60 * 60 - 120 && NothingToCorrect(c.slots, next) && !IsGap(unix, next)
    modifies c
    ensures c.Valid() && c.enabled && c.latest == old(c.latest) && c.unalignedUntil == old(c.unalignedUntil)
    ensures c.past == Issued(old(c.past).(first := c.past.first), r, r.minute + 60, old(c.slots), c.past.corrections)
    ensures SameMinutes(old(c.slots), c.slots)
    ensures r.minute == Upcoming(old(c.delivery), unix) && c.delivery.next == r.minute + 60
    ensures c.delivery.boot != "" && c.delivery.pending == Some(r) && r.boot == c.delivery.boot
    ensures c.delivery.started == if old(c.delivery).boot == "" then (unix + 59) / 60 * 60 else old(c.delivery).started
    ensures Collector.IsFrozen(old(c.slots), c.latest, c.past, r, false)
    ensures r.complete <==>
              Settled(unix, r.minute, c.delivery.started, c.latest, c.unalignedUntil) && r.dropped == r.unknown == 0
  {
    hide RingInvariant, StreamAccounted, LeaseHeld, Collector.IsFrozen;
    assert |c.slots| == 3 by { ThreeSlots(c.slots, c.latest, c.unalignedUntil, c.past); }
    ghost var next := Upcoming(c.delivery, unix);
    ghost var slots := c.slots;
    var result := c.Read(unix, 0, Some("boot"), "ssh");
    r := result.value;
    ghost var correction :| IsDue(slots, next, unix / 60 * 60 - 120, r.minute, correction);
  }

  lemma ThreeSlots(slots: seq<Slot>, latest: nat, unalignedUntil: int, past: Past)
    requires RingInvariant(slots, latest, unalignedUntil, past)
    ensures |slots| == 3
  {
  }

  /** The same, and the drainer acknowledges it. */
  method DrainNext(c: Collector, unix: int) returns (r: Report)
    requires c.Valid() && c.enabled && unix >= 120 && c.delivery.pending.None?
    requires var next := Upcoming(c.delivery, unix);
             0 <= next <= unix / 60 * 60 - 120 && NothingToCorrect(c.slots, next) && !IsGap(unix, next)
    modifies c
    ensures c.Valid() && c.enabled && c.latest == old(c.latest) && c.unalignedUntil == old(c.unalignedUntil)
    ensures c.past == Issued(old(c.past).(first := c.past.first), r, r.minute + 60, old(c.slots), c.past.corrections)
    ensures SameMinutes(old(c.slots), c.slots) && r.minute == Upcoming(old(c.delivery), unix)
    ensures c.delivery.boot != "" && c.delivery.pending.None? && c.delivery.next == r.minute + 60
    ensures c.delivery.started == if old(c.delivery).boot == "" then (unix + 59) / 60 * 60 else old(c.delivery).started
    ensures Collector.IsFrozen(old(c.slots), c.latest, c.past, r, false)
    ensures r.complete <==>
              Settled(unix, r.minute, c.delivery.started, c.latest, c.unalignedUntil) && r.dropped == r.unknown == 0
  {
    hide RingInvariant, StreamAccounted, LeaseHeld, Archived, Tracked, Collector.IsFrozen, Settled;
    r := ReadNext(c, unix);
    var ok := c.Ack(r.boot, r.sequence);
  }

  /** Drained at 600 and at 660, with payload at 600. */
  method FirstMinutes(id: Identity) returns (c: Collector)
    requires id.user > 0
    ensures fresh(c) && c.Valid() && c.enabled && c.latest == 600 && c.unalignedUntil == 0
    ensures c.slots[0] == c.slots[2] == CLEARED && c.slots[1].live && c.slots[1].at == 600 && !c.slots[1].dirty
    ensures c.delivery.boot != "" && c.delivery.pending.None? && c.delivery.next == 600 && c.delivery.started == 600
    ensures c.past.log == [Rec(id, 600, 1, 0)] && |c.past.issued| == |c.past.seen| == 2
  {
    hide RingInvariant, StreamAccounted, LeaseHeld, Archived, Tracked, Collector.IsFrozen, Settled;
    c := new Collector();
    c.SetEnabled(true);
    var r := DrainNext(c, 600);
    c.Record(id, 600, 1, 0);
    r := DrainNext(c, 660);
  }

  /**
   A run that loses a minute: the collector is drained at 600 and at 660, sees
   payload at 600 and at 780, and is drained again only at 780. Minute 600, due
   at 720, is then reported complete and empty.
   */
  method LateReadHidesMinute(id: Identity) returns (c: Collector, r: Report)
    requires id.user > 0 && id.source.Network?
    ensures c.Valid() && c.past.log == [Rec(id, 600, 1, 0), Rec(id, 780, 1, 0)] && Hit(c.past.log, 600, id)
    ensures r.minute == 600 && r.complete && r.items == [] && !ReportsExactly(r, c.past.log)
  {
    hide RingInvariant, StreamAccounted, LeaseHeld, ReportsExactly, Clamped, Archived, Tracked;
    c := FirstMinutes(id);
    c.Record(id, 780, 1, 0);
    ghost var slots := c.slots;
    r := ReadNext(c, 780);
    assert Hits(c.past.log[0], 600, id);
    assert Held(slots, 600) == EMPTY && Overtaken(slots, 600);
    EmptyList(r.items);
  }

  /** Minute 600 is reported in time, complete and with its payload so far. */
  method ReportInTime(id: Identity) returns (c: Collector, r: Report)
    requires id.user > 0 && id.source.Network?
    ensures fresh(c) && c.Valid() && c.enabled && c.latest == 720 && c.unalignedUntil == 0
    ensures c.slots[0].live && c.slots[0].at == 720 && c.slots[1].live && c.slots[1].at == 600 && c.slots[2] == CLEARED
    ensures !c.slots[0].dirty && !c.slots[1].dirty
    ensures c.delivery.boot != "" && c.delivery.pending.None? && c.delivery.next == 660
    ensures c.past.log == [Rec(id, 600, 1, 0), Rec(id, 720, 1, 0)] && |c.past.issued| == |c.past.seen| == 3
    ensures c.past.issued[2] == r && c.past.seen[2] == 2
    ensures r.minute == 600 && r.complete && r.dropped == r.unknown == 0
  {
    hide RingInvariant, StreamAccounted, LeaseHeld, Archived, Tracked;
    c := FirstMinutes(id);
    c.Record(id, 720, 1, 0);
    ghost var slots := c.slots;
    OneRecordIsLossless(slots, c.latest, c.unalignedUntil, c.past, id);
    r := DrainNext(c, 720);
  }

  lemma OneRecordIsLossless(slots: seq<Slot>, latest: nat, unalignedUntil: int, past: Past, id: Identity)
    requires RingInvariant(slots, latest, unalignedUntil, past) && latest == 720 && id.source.Network?
    requires past.log == [Rec(id, 600, 1, 0), Rec(id, 720, 1, 0)]
    ensures |slots| == 3 && Held(slots, 600).dropped == Held(slots, 600).unknown == 0
    ensures forall x :: x in Held(slots, 600).buckets ==> !Clamped(Held(slots, 600).buckets[x])
  {
    var log, first := past.log, Rec(id, 600, 1, 0);
    RetainedMinuteIsHeld(slots, latest, log, 600);
    assert log[..1] == [first] && [first][..0] == [];
    assert Fold(log, 600) == Fold([first], 600) == Apply(EMPTY, first);
  }

  /**
   A run that loses late payload: minute 600 is reported complete, then more of
   its payload comes and marks it, and payload at 780 takes the marked slot. The
   next read goes on with minute 660; the complete report of minute 600 is wrong
   from then on.
   */
  method MarkedSlotIsTaken(id: Identity) returns (c: Collector, r: Report, after: Report)
    requires id.user > 0 && id.source.Network?
    ensures c.Valid() && r in c.past.issued && r.minute == 600 && r.complete && after.minute == 660
    ensures 600 in c.past.missed && !ReportsExactly(r, c.past.log)
  {
    hide RingInvariant, StreamAccounted, LeaseHeld, ReportsExactly, Archived, Tracked, Collector.IsFrozen, Settled;
    c, r := ReportInTime(id);
    c.Record(id, 600, 1, 0);
    assert Marked(c.slots, 600);
    c.Record(id, 780, 1, 0);
    after := ReadNext(c, 780);
    assert c.past.issued[2] == r && c.past.seen[2] == 2;
    assert Minute(c.past.log[2].unix) == 600;
    ReportStaysExactIff(c.slots, c.past, 2);
  }
}
