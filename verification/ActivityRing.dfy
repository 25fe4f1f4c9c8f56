/**
 The ring of three minutes of internal/activity/activity.go, what it holds of the
 unbounded log of payload, and how a report is filled from it
 (internal/activity/delivery.go).
 */
module ActivityRing {
  import opened ActivityLog
  import opened ActivityReport

  /** `live` is "buckets is not nil". */
  datatype Slot = Slot(live: bool, at: nat, content: Content, dirty: bool)

  const CLEARED := Slot(false, 0, EMPTY, false)

  function Index(m: nat): nat {
    m / 60 % 3
  }

  // ---------------------------------------------------------------------------
  // The ring stands for the log
  // ---------------------------------------------------------------------------

  /** What the ring holds for minute `m`. */
  function Held(slots: seq<Slot>, m: nat): Content
    requires |slots| == 3
  {
    var s := slots[Index(m)];
    if s.live && s.at == m then s.content else EMPTY
  }

  /** The slot of `m` was given to a later minute. */
  predicate Overtaken(slots: seq<Slot>, m: nat)
    requires |slots| == 3
  {
    slots[Index(m)].live && slots[Index(m)].at > m
  }

  /** A slot is clear, or holds a minute of its own index no later than `latest`. */
  predicate WellPlaced(s: Slot, i: nat, latest: nat) {
    s == CLEARED || (s.live && s.at % 60 == 0 && Index(s.at) == i && s.at <= latest)
  }

  /** Unless a later minute took its slot, minute `m` is held as the log has it. */
  predicate HeldInFull(slots: seq<Slot>, log: seq<Rec>, m: nat)
    requires |slots| == 3
  {
    m % 60 == 0 && !Overtaken(slots, m) ==> Held(slots, m) == Fold(log, m)
  }

  ghost predicate NoneAfter(log: seq<Rec>, latest: nat) {
    forall i :: 0 <= i < |log| ==> Minute(log[i].unix) <= latest
  }

  ghost predicate RingRefinesLog(slots: seq<Slot>, latest: nat, log: seq<Rec>) {
    && |slots| == 3
    && latest % 60 == 0
    && WellPlaced(slots[0], 0, latest) && WellPlaced(slots[1], 1, latest) && WellPlaced(slots[2], 2, latest)
    && NoneAfter(log, latest)
    && forall m: nat {:trigger HeldInFull(slots, log, m)} :: HeldInFull(slots, log, m)
  }

  lemma ClearedRing()
    ensures RingRefinesLog([CLEARED, CLEARED, CLEARED], 0, [])
  {
    forall m: nat ensures HeldInFull([CLEARED, CLEARED, CLEARED], [], m) {}
  }

  lemma {:induction false} UnrecordedMinuteIsEmpty(log: seq<Rec>, m: nat)
    requires forall i :: 0 <= i < |log| ==> Minute(log[i].unix) != m
    ensures Fold(log, m) == EMPTY
  {
    if log != [] {
      UnrecordedMinuteIsEmpty(log[..|log| - 1], m);
    }
  }

  /** Every minute still inside the window is held in full. */
  lemma RetainedMinuteIsHeld(slots: seq<Slot>, latest: nat, log: seq<Rec>, m: nat)
    requires RingRefinesLog(slots, latest, log)
    requires m % 60 == 0 && latest - m < WINDOW
    ensures !Overtaken(slots, m) && Held(slots, m) == Fold(log, m)
  {
    assert HeldInFull(slots, log, m);
    assert WellPlaced(slots[Index(m)], Index(m), latest);
  }

  /** Every slot keeps both capacity limits, and its account table is exact. */
  lemma SlotsAreBounded(slots: seq<Slot>, latest: nat, log: seq<Rec>, i: nat)
    requires RingRefinesLog(slots, latest, log) && i < 3
    ensures Bounded(slots[i].content)
  {
    if slots[i].live {
      assert HeldInFull(slots, log, slots[i].at);
      FoldIsBounded(log, slots[i].at);
    } else {
      FoldIsBounded([], 0);
    }
  }

  /** Minute `m` is in its slot and marked as changed since its report. */
  predicate Marked(slots: seq<Slot>, m: nat)
    requires |slots| == 3
  {
    var s := slots[Index(m)];
    s.live && s.at == m && s.dirty
  }

  /**
   Only the slot of `at` changes hands, and only from a minute a full window
   older. Its mark is set if the minute was `reported` before, or was set already.
   */
  ghost predicate TakesOver(slots: seq<Slot>, slots': seq<Slot>, at: nat, reported: bool) {
    var i := Index(at);
    && |slots| == |slots'| == 3 && slots' == slots[i := slots'[i]] && slots'[i].live && slots'[i].at == at
    && (slots[i].live && slots[i].at != at ==> slots[i].at + WINDOW <= at)
    && (slots'[i].dirty <==> reported || Marked(slots, at))
  }

  /** The minute that loses its slot to `at` while marked, if there is one. */
  function TakenWhileMarked(slots: seq<Slot>, at: nat): set<nat>
    requires |slots| == 3
  {
    var s := slots[Index(at)];
    if s.live && s.at != at && s.dirty then {s.at} else {}
  }

  lemma EvictedMinuteIsExpired(slots: seq<Slot>, latest: nat, log: seq<Rec>, at: nat)
    requires RingRefinesLog(slots, latest, log)
    requires at % 60 == 0 && latest - at < WINDOW
    ensures var s := slots[Index(at)]; s.live && s.at != at ==> s.at + WINDOW <= at
  {
    RetainedMinuteIsHeld(slots, latest, log, at);
  }

  /** Giving the slot of `at` to the record keeps the ring equal to the log. */
  lemma RecordKeepsRing(slots: seq<Slot>, latest: nat, log: seq<Rec>, r: Rec, dirty: bool)
    requires RingRefinesLog(slots, latest, log)
    requires latest - Minute(r.unix) < WINDOW
    ensures var at := Minute(r.unix);
            var slot := Slot(true, at, Apply(Held(slots, at), r), dirty);
            RingRefinesLog(slots[Index(at) := slot], if at > latest then at else latest, log + [r])
  {
    var at := Minute(r.unix);
    var latest' := if at > latest then at else latest;
    var slot := Slot(true, at, Apply(Held(slots, at), r), dirty);
    var slots', log' := slots[Index(at) := slot], log + [r];
    assert log'[..|log|] == log;
    RetainedMinuteIsHeld(slots, latest, log, at);
    assert NoneAfter(log', latest');
    forall m: nat ensures HeldInFull(slots', log', m) {
      assert HeldInFull(slots, log, m);
      if m != at && m % 60 == 0 && !Overtaken(slots', m) {
        assert Fold(log', m) == Fold(log, m);
        if Index(m) == Index(at) {
          assert m >= at + WINDOW;
          UnrecordedMinuteIsEmpty(log, m);
        }
      }
    }
  }

  // ---------------------------------------------------------------------------
  // Reports
  // ---------------------------------------------------------------------------

  function Clamp(bytes: uint64): nat {
    if bytes > MAX_INT64 then MAX_INT64 else bytes
  }

  function Prefix(source: Source): string {
    if source.Network? then source.prefix else "invalid Prefix"
  }

  function BucketItem(id: Identity, b: Counters): Item {
    Item(id.user, id.inbound, id.path, Prefix(id.source), b.bits, Clamp(b.up), Clamp(b.down))
  }

  predicate Clamped(b: Counters) {
    b.up > MAX_INT64 || b.down > MAX_INT64
  }

  ghost function UpClamps(buckets: map<Identity, Counters>): set<Identity> {
    set id | id in buckets && buckets[id].up > MAX_INT64
  }

  ghost function DownClamps(buckets: map<Identity, Counters>): set<Identity> {
    set id | id in buckets && buckets[id].down > MAX_INT64
  }

  /** The item a perfect observer of the log would write for `id`. */
  function LogItem(log: seq<Rec>, m: nat, id: Identity): Item {
    Item(id.user, id.inbound, id.path, Prefix(id.source), SlicesHit(log, m, id), UpSum(log, m, id), DownSum(log, m, id))
  }

  /** The report lists every identity of its minute, exactly, once and in order. */
  ghost predicate ReportsExactly(r: Report, log: seq<Rec>) {
    && (forall id :: Hit(log, r.minute, id) ==> id.source.Network?)
    && StrictlySorted(r.items)
    && (forall id :: Hit(log, r.minute, id) ==> LogItem(log, r.minute, id) in r.items)
    && (forall x :: x in r.items ==> exists id :: Hit(log, r.minute, id) && x == LogItem(log, r.minute, id))
  }

  /** `items` lists the buckets, each once. */
  ghost predicate ListsBuckets(items: seq<Item>, buckets: map<Identity, Counters>) {
    && StrictlySorted(items)
    && (forall id :: id in buckets ==> BucketItem(id, buckets[id]) in items)
    && (forall x :: x in items ==> exists id :: id in buckets && x == BucketItem(id, buckets[id]))
  }

  /** Lossless and unclamped buckets make an exact report. */
  lemma LosslessReportIsExact(r: Report, log: seq<Rec>)
    requires var c := Fold(log, r.minute);
             && ListsBuckets(r.items, c.buckets)
             && c.dropped == 0 && c.unknown == 0
             && (forall id :: id in c.buckets ==> !Clamped(c.buckets[id]))
    ensures ReportsExactly(r, log)
  {
    var c := Fold(log, r.minute);
    LosslessFoldIsExact(log, r.minute);
    forall id | id in c.buckets
      ensures id.source.Network? && BucketItem(id, c.buckets[id]) == LogItem(log, r.minute, id)
    {
      FoldCountsInFull(log, r.minute, id);
    }
  }

  /**
   Exactly when a report marked complete is exact: the slot of its minute was
   not given to a later minute before the report was frozen, or the minute saw
   no payload at all.
   */
  lemma CompleteReportIsExactIff(slots: seq<Slot>, latest: nat, log: seq<Rec>, r: Report)
    requires RingRefinesLog(slots, latest, log) && r.minute % 60 == 0
    requires FrozenFrom(slots, r, false) && r.dropped == 0 && r.unknown == 0
    ensures ReportsExactly(r, log) <==> !Overtaken(slots, r.minute) || forall id :: !Hit(log, r.minute, id)
    ensures latest - r.minute < WINDOW ==> ReportsExactly(r, log)
  {
    assert HeldInFull(slots, log, r.minute);
    NothingDroppedIff(r, Held(slots, r.minute), false);
    if !Overtaken(slots, r.minute) {
      LosslessReportIsExact(r, log);
    }
    if latest - r.minute < WINDOW {
      RetainedMinuteIsHeld(slots, latest, log, r.minute);
    }
  }

  /** How Read fills a report from the slot of its minute. */
  ghost predicate FrozenFrom(slots: seq<Slot>, r: Report, gap: bool)
    requires |slots| == 3
  {
    ListsContent(r, Held(slots, r.minute), gap)
  }

  /** The report says what `c` holds, and how much of it was lost: one for a gap and one per clamped value on top. */
  ghost predicate ListsContent(r: Report, c: Content, gap: bool) {
    && ListsBuckets(r.items, c.buckets)
    && r.dropped == Saturate((if gap then 1 else 0) + c.dropped + |UpClamps(c.buckets)| + |DownClamps(c.buckets)|)
    && r.unknown == c.unknown
  }

  /** Nothing is reported lost exactly if nothing was. */
  lemma NothingDroppedIff(r: Report, c: Content, gap: bool)
    requires ListsContent(r, c, gap)
    ensures r.dropped == 0 <==> !gap && c.dropped == 0 && forall id :: id in c.buckets ==> !Clamped(c.buckets[id])
  {
    var ups, downs := UpClamps(c.buckets), DownClamps(c.buckets);
    assert |ups| == 0 <==> ups == {};
    assert |downs| == 0 <==> downs == {};
    forall id | id in c.buckets ensures Clamped(c.buckets[id]) <==> id in ups || id in downs {}
  }

  ghost function OfUser(ids: set<Identity>, user: int): set<Identity> {
    set id | id in ids && id.user == user
  }

  function Least(a: nat, b: nat): nat {
    if a < b then a else b
  }

  /** What a report writes for `id`: the slices, and the bytes up to the largest signed number. */
  function ToldItem(log: seq<Rec>, m: nat, id: Identity): Item
    requires id.source.Network?
  {
    Item(id.user, id.inbound, id.path, id.source.prefix, SlicesHit(log, m, id),
         Least(UpSum(log, m, id), MAX_INT64), Least(DownSum(log, m, id), MAX_INT64))
  }

  /** Every identity of the minute is counted, unless a limit was reached. */
  ghost predicate CountsAllItCan(log: seq<Rec>, m: nat, counted: set<Identity>) {
    && (forall id :: id in counted ==> id.source.Network? && Hit(log, m, id))
    && |counted| <= 4096 && (forall user :: |OfUser(counted, user)| <= 32)
    && forall id :: Hit(log, m, id) && id.source.Network? && id !in counted ==>
         |counted| == 4096 || |OfUser(counted, id.user)| == 32
  }

  ghost function UpsCut(log: seq<Rec>, m: nat, counted: set<Identity>): set<Identity> {
    set id | id in counted && UpSum(log, m, id) > MAX_INT64
  }

  ghost function DownsCut(log: seq<Rec>, m: nat, counted: set<Identity>): set<Identity> {
    set id | id in counted && DownSum(log, m, id) > MAX_INT64
  }

  ghost predicate TellsItems(items: seq<Item>, log: seq<Rec>, m: nat, counted: set<Identity>)
    requires CountsAllItCan(log, m, counted)
  {
    && StrictlySorted(items)
    && (forall id :: id in counted ==> ToldItem(log, m, id) in items)
    && (forall x :: x in items ==> exists id :: id in counted && x == ToldItem(log, m, id))
  }

  /**
   A report in terms of the log alone. It counts a set of identities, the others
   were shut out by a limit that was reached; it lists the counted ones with the
   bytes they moved, and its two loss numbers are the records that reached no
   bucket, with one for a gap and one for each value cut to the largest signed
   number.
   */
  ghost predicate TellsMinute(r: Report, log: seq<Rec>, gap: bool, counted: set<Identity>) {
    var m := r.minute;
    && CountsAllItCan(log, m, counted)
    && TellsItems(r.items, log, m, counted)
    && r.unknown == Saturate(UnknownCount(log, m))
    && r.dropped == Saturate((if gap then 1 else 0) + LostCount(log, m, counted)
                             + |UpsCut(log, m, counted)| + |DownsCut(log, m, counted)|)
  }

  lemma ReportTellsMinute(r: Report, log: seq<Rec>, gap: bool)
    requires ListsContent(r, Fold(log, r.minute), gap)
    ensures TellsMinute(r, log, gap, Fold(log, r.minute).buckets.Keys)
  {
    hide Fold, UpClamps, DownClamps, UpsCut, DownsCut, CountsAllItCan, TellsItems, ListsBuckets;
    var m := r.minute;
    FoldAccountsForLosses(log, m);
    CountingIsFair(log, m);
    ClampsInLog(log, m);
    ItemsAreTold(r.items, log, m);
  }

  lemma CountedIsFair(log: seq<Rec>, m: nat, id: Identity)
    ensures var counted := Fold(log, m).buckets.Keys;
            if id in counted then id.source.Network? && Hit(log, m, id)
            else Hit(log, m, id) && id.source.Network? ==> |counted| >= 4096 || |OfUser(counted, id.user)| >= 32
  {
    hide Fold, SlicesHit, UpSum, DownSum, Hit;
    var c := Fold(log, m);
    FoldIsBounded(log, m);
    assert OfUser(c.buckets.Keys, id.user) == BucketsOf(c, id.user);
    assert |c.buckets| == |c.buckets.Keys|;
    FoldCountsInFull(log, m, id);
  }

  lemma CountingIsFair(log: seq<Rec>, m: nat)
    ensures CountsAllItCan(log, m, Fold(log, m).buckets.Keys)
  {
    hide Fold, Hit;
    var c := Fold(log, m);
    FoldIsBounded(log, m);
    assert |c.buckets| == |c.buckets.Keys|;
    forall user ensures |OfUser(c.buckets.Keys, user)| <= 32 {
      assert OfUser(c.buckets.Keys, user) == BucketsOf(c, user);
    }
    forall id
      ensures if id in c.buckets.Keys then id.source.Network? && Hit(log, m, id)
              else Hit(log, m, id) && id.source.Network? ==>
                     |c.buckets.Keys| >= 4096 || |OfUser(c.buckets.Keys, id.user)| >= 32
    {
      CountedIsFair(log, m, id);
    }
  }

  lemma CountedIsTold(log: seq<Rec>, m: nat, id: Identity)
    requires id in Fold(log, m).buckets
    ensures var b := Fold(log, m).buckets[id];
            && id.source.Network? && BucketItem(id, b) == ToldItem(log, m, id)
            && (b.up > MAX_INT64 <==> UpSum(log, m, id) > MAX_INT64)
            && (b.down > MAX_INT64 <==> DownSum(log, m, id) > MAX_INT64)
  {
    hide Fold, SlicesHit, UpSum, DownSum, Hit;
    FoldCountsInFull(log, m, id);
  }

  lemma ItemsAreTold(items: seq<Item>, log: seq<Rec>, m: nat)
    requires ListsBuckets(items, Fold(log, m).buckets)
    requires CountsAllItCan(log, m, Fold(log, m).buckets.Keys)
    ensures TellsItems(items, log, m, Fold(log, m).buckets.Keys)
  {
    hide Fold, ToldItem, BucketItem, CountsAllItCan;
    var buckets := Fold(log, m).buckets;
    forall id | id in buckets ensures id.source.Network? && BucketItem(id, buckets[id]) == ToldItem(log, m, id) {
      CountedIsTold(log, m, id);
    }
  }

  lemma ClampsInLog(log: seq<Rec>, m: nat)
    ensures var b := Fold(log, m).buckets;
            UpClamps(b) == UpsCut(log, m, b.Keys) && DownClamps(b) == DownsCut(log, m, b.Keys)
  {
    hide Fold, UpSum, DownSum;
    var b := Fold(log, m).buckets;
    forall id | id in b
      ensures b[id].up > MAX_INT64 <==> UpSum(log, m, id) > MAX_INT64
      ensures b[id].down > MAX_INT64 <==> DownSum(log, m, id) > MAX_INT64
    {
      CountedIsTold(log, m, id);
    }
  }

  lemma EmptyList(items: seq<Item>)
    requires ListsBuckets(items, map[])
    ensures items == []
  {
    HasMember(items);
  }

  lemma BucketSourcesAreKnown(slots: seq<Slot>, latest: nat, log: seq<Rec>, m: nat)
    requires RingRefinesLog(slots, latest, log) && m % 60 == 0
    ensures forall id :: id in Held(slots, m).buckets ==> id.source.Network?
  {
    assert HeldInFull(slots, log, m);
    if !Overtaken(slots, m) {
      forall id | id in Held(slots, m).buckets ensures id.source.Network? {
        FoldCountsInFull(log, m, id);
      }
    }
  }

  /** The clamped values outside `rest`. */
  ghost function ClampsOutside(buckets: map<Identity, Counters>, rest: set<Identity>): nat {
    |UpClamps(buckets) - rest| + |DownClamps(buckets) - rest|
  }

  lemma OneMore(all: set<Identity>, rest: set<Identity>, id: Identity)
    requires id in rest
    ensures |all - (rest - {id})| == |all - rest| + if id in all then 1 else 0
  {
    if id in all {
      assert all - (rest - {id}) == all - rest + {id};
    } else {
      assert all - (rest - {id}) == all - rest;
    }
  }

  lemma ClampStep(buckets: map<Identity, Counters>, rest: set<Identity>, id: Identity)
    requires id in rest && id in buckets
    ensures ClampsOutside(buckets, rest - {id}) ==
            ClampsOutside(buckets, rest) + (if buckets[id].up > MAX_INT64 then 1 else 0)
            + (if buckets[id].down > MAX_INT64 then 1 else 0)
  {
    OneMore(UpClamps(buckets), rest, id);
    OneMore(DownClamps(buckets), rest, id);
  }

  lemma ClampBounds(buckets: map<Identity, Counters>)
    ensures ClampsOutside(buckets, buckets.Keys) == 0
    ensures ClampsOutside(buckets, {}) == |UpClamps(buckets)| + |DownClamps(buckets)|
  {
    assert UpClamps(buckets) - buckets.Keys == {} && DownClamps(buckets) - buckets.Keys == {};
    assert UpClamps(buckets) - {} == UpClamps(buckets) && DownClamps(buckets) - {} == DownClamps(buckets);
  }

  /** Walks the buckets in any order, clamping and noting each clamp, then sorts. */
  method WalkBuckets(buckets: map<Identity, Counters>, loss: uint64) returns (items: seq<Item>, dropped: uint64)
    requires forall id :: id in buckets ==> id.source.Network?
    ensures ListsBuckets(items, buckets)
    ensures dropped == Saturate(loss + |UpClamps(buckets)| + |DownClamps(buckets)|)
  {
    hide ClampsOutside, UpClamps, DownClamps;
    items, dropped := [], loss;
    var rest := buckets.Keys;
    ClampBounds(buckets);
    while rest != {}
      invariant rest <= buckets.Keys
      invariant forall id :: id in buckets && id !in rest ==> BucketItem(id, buckets[id]) in items
      invariant forall x :: x in items ==> exists id :: id in buckets && id !in rest && x == BucketItem(id, buckets[id])
      invariant DistinctKeys(items)
      invariant dropped == Saturate(loss + ClampsOutside(buckets, rest))
    {
      var id :| id in rest;
      ClampStep(buckets, rest, id);
      rest := rest - {id};
      var b := buckets[id];
      var up, down := b.up, b.down;
      if up > MAX_INT64 {
        up := MAX_INT64;
        dropped := Add(dropped, 1);
      }
      if down > MAX_INT64 {
        down := MAX_INT64;
        dropped := Add(dropped, 1);
      }
      var item := Item(id.user, id.inbound, id.path, Prefix(id.source), b.bits, up, down);
      assert item == BucketItem(id, b);
      forall x | x in items ensures !SameKey(x, item) {
        var other :| other in buckets && other !in rest + {id} && x == BucketItem(other, buckets[other]);
        assert other != id;
      }
      items := items + [item];
    }
    SortItemsSorts(items);
    items := SortItems(items);
  }

  /** What the slot of minute `at` contributes to its report. */
  method Gather(slots: seq<Slot>, at: nat, loss: uint64) returns (items: seq<Item>, dropped: uint64, unknown: uint64)
    requires |slots| == 3 && (slots[Index(at)].live || slots[Index(at)] == CLEARED)
    requires forall id :: id in Held(slots, at).buckets ==> id.source.Network?
    ensures var c := Held(slots, at);
            && ListsBuckets(items, c.buckets) && unknown == c.unknown
            && dropped == Saturate(loss + c.dropped + |UpClamps(c.buckets)| + |DownClamps(c.buckets)|)
  {
    items, dropped, unknown := [], loss, 0;
    var s := slots[at / 60 % 3];
    if s.at == at {
      dropped := Add(dropped, s.content.dropped);
      unknown := s.content.unknown;
      items, dropped := WalkBuckets(s.content.buckets, dropped);
    }
  }
}
