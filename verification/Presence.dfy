/**
 Presence delivery of internal/agent/presence.go: numbered events, batches of a
 contract size, a bounded requeue for what the link did not take, and a count of
 everything lost. The poller of a dead connection is not awaited before the next
 connection starts its own, so several pollers may be at work; each method below
 that names a poller is one step of it, and the steps may come in any order.
 */
module Presence {
  import opened Sums
  import opened Wrappers

  const BATCH_SIZE: nat := 500
  const MAX_PENDING: nat := 4096
  const MAX_AGE: nat := 300_000_000_000  // five minutes, in nanoseconds

  /** `at` is the observation time, or None where its text does not parse. */
  datatype Event = Event(number: nat, at: Option<int>, body: string)

  datatype Delta = Delta(events: seq<Event>, dropped: nat)

  /** What a poller has in hand: events without a number yet, events to write, drops to report. */
  datatype Poller = Poller(raw: seq<Event>, events: seq<Event>, dropped: nat, took: bool)

  /** What the writer said of a message. One it refused may still go out, at any later time. */
  datatype Link = Accepted | Refused

  /** What has been said about the events so far. */
  datatype Ledger = Ledger(
    taken: nat,             // events drained plus drops the sources reported
    discarded: nat,         // thrown away because the audit was off
    batches: seq<Delta>,    // messages whose write succeeded, in order
    refusals: nat,          // writes that failed
    issued: seq<Event>,     // all numbered events, in the order of their numbers
    received: seq<Event>,   // events of all messages that went out, in order
    afloat: seq<seq<Event>>,   // events of refused messages that may still go out
    overlapped: bool,       // two pollers were at work at once
    belated: bool)          // a refused message came after later events, with some not received before

  const EMPTY := Ledger(0, 0, [], 0, [], [], [], false, false)

  function Sent(batches: seq<Delta>): seq<Event> {
    if batches == [] then [] else Sent(batches[..|batches| - 1]) + batches[|batches| - 1].events
  }

  function SentDrops(batches: seq<Delta>): nat {
    if batches == [] then 0 else SentDrops(batches[..|batches| - 1]) + batches[|batches| - 1].dropped
  }

  lemma BatchAppended(batches: seq<Delta>, batch: Delta)
    ensures Sent(batches + [batch]) == Sent(batches) + batch.events
    ensures SentDrops(batches + [batch]) == SentDrops(batches) + batch.dropped
  {
    assert (batches + [batch])[..|batches|] == batches;
  }

  predicate Expired(e: Event, now: int) {
    e.at.None? || now - e.at.value > MAX_AGE
  }

  function Kept(events: seq<Event>, now: int): seq<Event> {
    if events == [] then []
    else Kept(events[..|events| - 1], now) + if Expired(events[|events| - 1], now) then [] else [events[|events| - 1]]
  }

  /** Exactly the events observed within the last five minutes are kept, each as often as it was there. */
  lemma {:induction false} KeptAreRecent(events: seq<Event>, now: int, e: Event)
    ensures multiset(Kept(events, now))[e] ==
            if e.at.Some? && now - e.at.value <= 300_000_000_000 then multiset(events)[e] else 0
  {
    if events != [] {
      var n := |events| - 1;
      assert events == events[..n] + [events[n]];
      KeptAreRecent(events[..n], now, e);
    }
  }

  // ---------------------------------------------------------------------------
  // Order
  // ---------------------------------------------------------------------------

  ghost predicate Increasing(events: seq<Event>) {
    forall i, j :: 0 <= i < j < |events| ==> events[i].number < events[j].number
  }

  /** Joining two lists keeps the order exactly if each has it and the edges meet in order. */
  lemma EdgesDecide(a: seq<Event>, b: seq<Event>)
    ensures Increasing(a + b) <==>
            Increasing(a) && Increasing(b) && (a == [] || b == [] || a[|a| - 1].number < b[0].number)
  {
    var c := a + b;
    if Increasing(c) {
      forall i, j | 0 <= i < j < |a| ensures a[i].number < a[j].number { assert c[i] == a[i] && c[j] == a[j]; }
      forall i, j | 0 <= i < j < |b| ensures b[i].number < b[j].number {
        assert c[|a| + i] == b[i] && c[|a| + j] == b[j];
      }
      if a != [] && b != [] {
        assert c[|a| - 1] == a[|a| - 1] && c[|a|] == b[0];
      }
    }
  }

  /** Every event that arrives out of order is a copy of one that has arrived before. */
  ghost predicate StepsBackAreRepeats(received: seq<Event>) {
    forall i, j :: 0 <= i < j < |received| && received[j].number <= received[i].number ==> received[j] in received[..j]
  }

  /** A waiting event with a number already passed has itself been received. */
  ghost predicate Echoes(waiting: seq<Event>, received: seq<Event>) {
    forall e, r :: e in waiting && r in received && e.number <= r.number ==> e in received
  }

  /** What was received, and what may still be. */
  function Outside(ledger: Ledger): seq<seq<Event>> {
    [ledger.received] + ledger.afloat
  }

  /** What was delivered goes on with what is waiting, and only copies of what is outside are behind. */
  ghost predicate InLine(sent: seq<Event>, waiting: seq<Event>, outside: seq<seq<Event>>) {
    Increasing(sent + waiting) && forall i :: 0 <= i < |outside| ==> Echoes(waiting, outside[i])
  }

  /** Leaving events out of a list. */
  ghost predicate Thinned(less: seq<Event>, more: seq<Event>) {
    (forall e :: e in less ==> e in more) && (Increasing(more) ==> Increasing(less))
  }

  lemma {:induction false} KeptStaysInOrder(events: seq<Event>, now: int)
    ensures Thinned(Kept(events, now), events) && |Kept(events, now)| <= |events|
  {
    if events != [] {
      var front, last := events[..|events| - 1], events[|events| - 1];
      assert events == front + [last];
      KeptStaysInOrder(front, now);
      var kept := Kept(front, now);
      EdgesDecide(front, [last]);
      EdgesDecide(kept, [last]);
      if Increasing(events) && kept != [] {
        assert kept[|kept| - 1] in kept;
        var i :| 0 <= i < |front| && front[i] == kept[|kept| - 1];
        assert events[i] == front[i];
      }
    }
  }

  lemma SuffixStaysInOrder(events: seq<Event>, k: nat)
    requires k <= |events|
    ensures Thinned(events[k..], events)
  {
  }

  /** Thinning what waits keeps the line. */
  lemma ThinnedStaysInLine(sent: seq<Event>, waiting: seq<Event>, less: seq<Event>, outside: seq<seq<Event>>)
    requires InLine(sent, waiting, outside) && Thinned(less, waiting)
    ensures InLine(sent, less, outside)
  {
    EdgesDecide(sent, waiting);
    EdgesDecide(sent, less);
    if sent != [] && less != [] {
      assert less[0] in less;
      var i :| 0 <= i < |waiting| && waiting[i] == less[0];
      assert (sent + waiting)[|sent| - 1] == sent[|sent| - 1] && (sent + waiting)[|sent| + i] == waiting[i];
    }
  }

  /** A message is delivered, or refused and set afloat. */
  lemma ArrivalKeepsLine(sent: seq<Event>, chunk: seq<Event>, rest: seq<Event>, received: seq<Event>,
      afloat: seq<seq<Event>>)
    requires InLine(sent, chunk + rest, [received] + afloat)
    ensures InLine(sent + chunk, rest, [received + chunk] + afloat)
    ensures InLine(sent, chunk + rest, [received] + (afloat + [chunk]))
    ensures Increasing(chunk) && (StepsBackAreRepeats(received) ==> StepsBackAreRepeats(received + chunk))
  {
    var outside := [received] + afloat;
    assert sent + (chunk + rest) == sent + chunk + rest;
    EdgesDecide(sent, chunk + rest);
    EdgesDecide(chunk, rest);
    assert Echoes(chunk + rest, outside[0]);
    ArrivalEchoes(chunk, rest, received);
    ArrivalEchoes(chunk, rest, []);
    assert [] + chunk == chunk;
    forall i | 0 <= i < |afloat| ensures Echoes(rest, afloat[i]) && Echoes(chunk + rest, afloat[i]) {
      assert outside[i + 1] == afloat[i];
    }
    if StepsBackAreRepeats(received) {
      ArrivalRepeats(chunk, rest, received);
    }
  }

  /** A refused message goes out after all; a step back is then new exactly if an event of it is behind and new. */
  lemma StrayKeepsLine(sent: seq<Event>, waiting: seq<Event>, received: seq<Event>, afloat: seq<seq<Event>>, i: nat)
    requires InLine(sent, waiting, [received] + afloat) && i < |afloat| && Increasing(afloat[i])
    ensures InLine(sent, waiting, [received + afloat[i]] + (afloat[..i] + afloat[i + 1..]))
    ensures StepsBackAreRepeats(received + afloat[i]) <==> StepsBackAreRepeats(received) && Echoes(afloat[i], received)
  {
    var outside, chunk, rest := [received] + afloat, afloat[i], afloat[..i] + afloat[i + 1..];
    assert outside[0] == received && outside[i + 1] == chunk;
    assert Echoes(waiting, received + chunk) by {
      assert Echoes(waiting, outside[0]) && Echoes(waiting, outside[i + 1]);
    }
    forall j | 0 <= j < |rest| ensures Echoes(waiting, rest[j]) {
      assert rest[j] == outside[if j < i then j + 1 else j + 2];
    }
    StrayRepeatsIff(chunk, received);
  }

  lemma StrayRepeatsIff(chunk: seq<Event>, received: seq<Event>)
    requires Increasing(chunk)
    ensures StepsBackAreRepeats(received + chunk) <==> StepsBackAreRepeats(received) && Echoes(chunk, received)
  {
    var all := received + chunk;
    if StepsBackAreRepeats(received) && Echoes(chunk, received) {
      assert chunk + [] == chunk;
      ArrivalRepeats(chunk, [], received);
    }
    if StepsBackAreRepeats(all) {
      forall i, j | 0 <= i < j < |received| && received[j].number <= received[i].number
        ensures received[j] in received[..j]
      {
        assert all[j] == received[j] && all[i] == received[i] && all[..j] == received[..j];
      }
      forall e, r | e in chunk && r in received && e.number <= r.number ensures e in received {
        var i :| 0 <= i < |received| && received[i] == r;
        var j :| 0 <= j < |chunk| && chunk[j] == e;
        assert all[i] == r && all[|received| + j] == e;
        assert all[..|received| + j] == received + chunk[..j];
        assert e !in chunk[..j];
      }
    }
  }

  lemma ArrivalEchoes(chunk: seq<Event>, rest: seq<Event>, received: seq<Event>)
    requires Increasing(chunk + rest) && Echoes(chunk + rest, received)
    ensures Echoes(chunk + rest, received + chunk) && Echoes(rest, received + chunk)
  {
    var all := chunk + rest;
    forall e, r | e in all && r in received + chunk && e.number <= r.number ensures e in received + chunk {
      if r !in received {
        var i :| 0 <= i < |all| && all[i] == e;
        var j :| 0 <= j < |chunk| && chunk[j] == r;
        assert all[j] == r;
        assert i <= j;
        assert chunk[i] == e;
      }
    }
    forall e | e in rest ensures e in all {}
  }

  lemma ArrivalRepeats(chunk: seq<Event>, rest: seq<Event>, received: seq<Event>)
    requires Increasing(chunk) && Echoes(chunk + rest, received) && StepsBackAreRepeats(received)
    ensures StepsBackAreRepeats(received + chunk)
  {
    var all := received + chunk;
    forall i, j | 0 <= i < j < |all| && all[j].number <= all[i].number ensures all[j] in all[..j] {
      if j < |received| {
        assert all[..j] == received[..j];
      } else {
        assert i < |received|;
        assert all[j] in chunk + rest && all[i] in received;
        assert all[j] in received && received <= all[..j];
      }
    }
  }

  /** A number beyond all received ones joins the line. */
  lemma NewNumberJoins(sent: seq<Event>, waiting: seq<Event>, outside: seq<seq<Event>>, e: Event)
    requires InLine(sent, waiting, outside) && Below(sent + waiting, e.number)
    requires forall i :: 0 <= i < |outside| ==> Below(outside[i], e.number)
    ensures InLine(sent, waiting + [e], outside)
  {
    EdgesDecide(sent + waiting, [e]);
    assert sent + (waiting + [e]) == sent + waiting + [e];
  }

  ghost predicate Below(events: seq<Event>, number: nat) {
    forall i :: 0 <= i < |events| ==> events[i].number < number
  }

  /** Under one poller at a time the numbers received increase strictly exactly if nothing was received twice. */
  lemma ReceivedIncreasesIff(received: seq<Event>)
    requires StepsBackAreRepeats(received)
    ensures Increasing(received) <==> forall i, j :: 0 <= i < j < |received| ==> received[i] != received[j]
  {
    if forall i, j :: 0 <= i < j < |received| ==> received[i] != received[j] {
      forall j | 0 <= j < |received| ensures received[j] !in received[..j] {}
    }
  }

  // ---------------------------------------------------------------------------
  // The invariant
  // ---------------------------------------------------------------------------

  function Weight(p: Poller): int {
    |p.raw| + |p.events| + p.dropped
  }

  ghost function Column(held: map<nat, Poller>): map<nat, int> {
    map id | id in held :: Weight(held[id])
  }

  /** Every event and every reported drop is delivered, counted as lost, discarded, waiting or in a poller's hands. */
  ghost predicate Balanced(pending: seq<Event>, pendingDropped: nat, held: map<nat, Poller>, ledger: Ledger) {
    ledger.taken == |Sent(ledger.batches)| + SentDrops(ledger.batches) + ledger.discarded
                    + |pending| + pendingDropped + Sum(Column(held))
  }

  ghost predicate Among(events: seq<Event>, issued: seq<Event>) {
    forall e :: e in events ==> e in issued
  }

  /** Whatever has a number was given it once and is unchanged since. */
  ghost predicate Known(pending: seq<Event>, sequence: nat, held: map<nat, Poller>, ledger: Ledger) {
    && Increasing(ledger.issued) && Below(ledger.issued, sequence + 1)
    && Among(pending, ledger.issued) && Among(ledger.received, ledger.issued)
    && Among(Sent(ledger.batches), ledger.issued)
    && (forall i :: 0 <= i < |ledger.afloat| ==> Among(ledger.afloat[i], ledger.issued))
    && forall id :: id in held ==> Among(held[id].events, ledger.issued)
  }

  /** With one poller at a time everything is in line. */
  ghost predicate Lined(pending: seq<Event>, held: map<nat, Poller>, ledger: Ledger) {
    && Afloat(ledger.received, ledger.afloat, ledger.belated)
    && (held == map[] ==> InLine(Sent(ledger.batches), pending, Outside(ledger)))
    && forall id :: id in held ==>
         && held.Keys == {id} && (held[id].took ==> pending == [])
         && InLine(Sent(ledger.batches), pending + held[id].events, Outside(ledger))
  }

  /** What the line knows of messages outside, whoever is at work. */
  ghost predicate Afloat(received: seq<Event>, afloat: seq<seq<Event>>, belated: bool) {
    && (!belated ==> StepsBackAreRepeats(received))
    && (forall i :: 0 <= i < |afloat| ==> Increasing(afloat[i]))
  }

  ghost predicate SmallBatches(batches: seq<Delta>) {
    forall i :: 0 <= i < |batches| ==> |batches[i].events| <= BATCH_SIZE
  }

  ghost predicate Sound(pending: seq<Event>, pendingDropped: nat, sequence: nat, held: map<nat, Poller>,
      ledger: Ledger) {
    && Balanced(pending, pendingDropped, held, ledger) && Known(pending, sequence, held, ledger)
    && SmallBatches(ledger.batches) && |pending| <= MAX_PENDING
    && (!ledger.overlapped ==> Lined(pending, held, ledger))
  }

  /** Two events with one number are the same event, wherever they are. */
  lemma OneEventPerNumber(pending: seq<Event>, sequence: nat, held: map<nat, Poller>, ledger: Ledger, a: Event,
      b: Event)
    requires Known(pending, sequence, held, ledger) && a.number == b.number
    requires a in ledger.received || a in Sent(ledger.batches) || a in pending
    requires b in ledger.received || b in Sent(ledger.batches) || b in pending
    ensures a == b
  {
    var i :| 0 <= i < |ledger.issued| && ledger.issued[i] == a;
    var j :| 0 <= j < |ledger.issued| && ledger.issued[j] == b;
  }

  /**
   While pollers do not overlap, delivered numbers strictly increase. If no
   refused message came belated either, so do the numbers received, exactly if
   nothing was received twice.
   */
  lemma OnePollerKeepsOrder(pending: seq<Event>, pendingDropped: nat, sequence: nat, held: map<nat, Poller>,
      ledger: Ledger)
    requires Sound(pending, pendingDropped, sequence, held, ledger) && !ledger.overlapped
    ensures Increasing(Sent(ledger.batches))
    ensures !ledger.belated ==> StepsBackAreRepeats(ledger.received)
    ensures !ledger.belated ==>
              (Increasing(ledger.received) <==>
               forall i, j :: 0 <= i < j < |ledger.received| ==> ledger.received[i] != ledger.received[j])
  {
    hide Balanced, Known, Echoes, Increasing;
    if held == map[] {
      EdgesDecide(Sent(ledger.batches), pending);
    } else {
      var id :| id in held;
      EdgesDecide(Sent(ledger.batches), pending + held[id].events);
    }
    if !ledger.belated {
      ReceivedIncreasesIff(ledger.received);
    }
  }

  lemma HeldMoves(held: map<nat, Poller>, id: nat, p: Poller)
    ensures Sum(Column(held[id := p])) == Sum(Column(held)) + Weight(p) - if id in held then Weight(held[id]) else 0
  {
    SumUpdate(Column(held), id, Weight(p));
    assert Column(held[id := p]) == Column(held)[id := Weight(p)];
  }

  lemma HeldGone(held: map<nat, Poller>, id: nat)
    requires id in held
    ensures Sum(Column(held - {id})) == Sum(Column(held)) - Weight(held[id])
  {
    SumRemove(Column(held), id);
    assert Column(held - {id}) == Column(held) - {id};
  }

  // --- one lemma per step ------------------------------------------------------

  function Opened(ledger: Ledger, held: map<nat, Poller>, count: nat): Ledger {
    ledger.(taken := ledger.taken + count, overlapped := ledger.overlapped || held != map[])
  }

  function Numbered(p: Poller, number: nat): Poller
    requires p.raw != []
  {
    p.(raw := p.raw[1..], events := p.events + [p.raw[0].(number := number)])
  }

  function Gathered(p: Poller, pending: seq<Event>, pendingDropped: nat, now: int): Poller {
    var kept := Kept(pending + p.events, now);
    KeptStaysInOrder(pending + p.events, now);
    Poller([], kept, p.dropped + pendingDropped + |pending + p.events| - |kept|, true)
  }

  /** The next message of a poller. */
  function Chunk(p: Poller): seq<Event> {
    if |p.events| > BATCH_SIZE then p.events[..BATCH_SIZE] else p.events
  }

  /** Drops are reported once, with the first message. */
  function Remaining(p: Poller): Poller {
    p.(events := p.events[|Chunk(p)|..], dropped := 0)
  }

  /** A message has the first 500 events, or all if there are no more; the rest follows with no drops to report. */
  lemma ChunksAreFull(p: Poller)
    ensures |Chunk(p)| == (if |p.events| > 500 then 500 else |p.events|)
    ensures Chunk(p) + Remaining(p).events == p.events && Remaining(p).dropped == 0
  {
  }

  function Written(ledger: Ledger, p: Poller, link: Link): Ledger {
    match link
    case Accepted =>
      ledger.(batches := ledger.batches + [Delta(Chunk(p), p.dropped)], received := ledger.received + Chunk(p))
    case Refused => ledger.(refusals := ledger.refusals + 1, afloat := ledger.afloat + [Chunk(p)])
  }

  /** Refused message `i` goes out after all. */
  ghost function Arrived(ledger: Ledger, i: nat): Ledger
    requires i < |ledger.afloat|
  {
    ledger.(received := ledger.received + ledger.afloat[i], afloat := ledger.afloat[..i] + ledger.afloat[i + 1..],
            belated := ledger.belated || !Echoes(ledger.afloat[i], ledger.received))
  }

  function Overflow(merged: seq<Event>): nat {
    if |merged| > MAX_PENDING then |merged| - MAX_PENDING else 0
  }

  lemma LineOf(pending: seq<Event>, held: map<nat, Poller>, ledger: Ledger, id: nat)
    requires Lined(pending, held, ledger) && id in held
    ensures held.Keys == {id} && (held[id].took ==> pending == [])
    ensures Afloat(ledger.received, ledger.afloat, ledger.belated)
    ensures InLine(Sent(ledger.batches), pending + held[id].events, Outside(ledger))
  {
  }

  lemma LineWith(pending: seq<Event>, held: map<nat, Poller>, ledger: Ledger, id: nat, p: Poller)
    requires held.Keys <= {id} && (p.took ==> pending == []) && Afloat(ledger.received, ledger.afloat, ledger.belated)
    requires InLine(Sent(ledger.batches), pending + p.events, Outside(ledger))
    ensures Lined(pending, held[id := p], ledger)
  {
    assert held[id := p].Keys == {id};
  }

  lemma LineWithout(pending: seq<Event>, held: map<nat, Poller>, ledger: Ledger, id: nat)
    requires held.Keys <= {id} && Afloat(ledger.received, ledger.afloat, ledger.belated)
    requires InLine(Sent(ledger.batches), pending, Outside(ledger))
    ensures Lined(pending, held - {id}, ledger)
  {
    assert (held - {id}).Keys == {};
  }

  /** The first `k` events were delivered and the others went ahead of what waited. */
  ghost predicate SplitAt(events: seq<Event>, k: nat, waited: seq<Event>, was: Ledger, pending: seq<Event>,
      ledger: Ledger)
    requires k <= |events|
  {
    var merged := events[k..] + waited;
    Sent(ledger.batches) == Sent(was.batches) + events[..k] && pending == merged[Overflow(merged)..]
  }

  lemma OpenIsSound(pending: seq<Event>, pendingDropped: nat, sequence: nat, held: map<nat, Poller>, ledger: Ledger,
      id: nat, drained: seq<Event>, dropped: nat)
    requires Sound(pending, pendingDropped, sequence, held, ledger) && id !in held
    ensures Sound(pending, pendingDropped, sequence, held[id := Poller(drained, [], dropped, false)],
              Opened(ledger, held, |drained| + dropped))
  {
    hide InLine, Sum, Sent, SentDrops, Increasing, Afloat;
    var p := Poller(drained, [], dropped, false);
    HeldMoves(held, id, p);
    assert pending + [] == pending;
    if !ledger.overlapped && held == map[] {
      LineWith(pending, held, Opened(ledger, held, |drained| + dropped), id, p);
    }
  }

  lemma NumberIsSound(pending: seq<Event>, pendingDropped: nat, sequence: nat, held: map<nat, Poller>, ledger: Ledger,
      id: nat, number: nat)
    requires Sound(pending, pendingDropped, sequence, held, ledger) && id in held && held[id].raw != []
    requires !held[id].took
    requires number > sequence
    ensures Sound(pending, pendingDropped, number, held[id := Numbered(held[id], number)],
              ledger.(issued := ledger.issued + [held[id].raw[0].(number := number)]))
  {
    hide Sum, Sent, SentDrops, Afloat, InLine, Increasing, Lined;
    var p, e := held[id], held[id].raw[0].(number := number);
    var sent, issued := Sent(ledger.batches), ledger.issued;
    HeldMoves(held, id, Numbered(p, number));
    EdgesDecide(issued, [e]);
    assert Increasing([e]) by { OneIsIncreasing(e); }
    assert Increasing(issued + [e]);
    if !ledger.overlapped {
      LineOf(pending, held, ledger, id);
      BelowAmong(sent + (pending + p.events), issued, sequence, number);
      var outside := Outside(ledger);
      forall i | 0 <= i < |outside| ensures Below(outside[i], number) {
        BelowAmong(outside[i], issued, sequence, number);
      }
      NewNumberJoins(sent, pending + p.events, outside, e);
      assert pending + (p.events + [e]) == pending + p.events + [e];
      LineWith(pending, held, ledger.(issued := issued + [e]), id, Numbered(p, number));
    }
  }

  lemma OneIsIncreasing(e: Event)
    ensures Increasing([e])
  {
  }

  lemma BelowAmong(events: seq<Event>, issued: seq<Event>, sequence: nat, number: nat)
    requires Below(issued, sequence + 1) && sequence < number && Among(events, issued)
    ensures Below(events, number)
  {
    forall i | 0 <= i < |events| ensures events[i].number < number {
      assert events[i] in events;
    }
  }

  lemma TakeIsSound(pending: seq<Event>, pendingDropped: nat, sequence: nat, held: map<nat, Poller>, ledger: Ledger,
      id: nat, now: int)
    requires Sound(pending, pendingDropped, sequence, held, ledger) && id in held && held[id].raw == []
    requires !held[id].took
    ensures Sound([], 0, sequence, held[id := Gathered(held[id], pending, pendingDropped, now)], ledger)
  {
    hide Sum, Sent, SentDrops, Afloat, InLine, Increasing, Kept, Lined;
    var p, p' := held[id], Gathered(held[id], pending, pendingDropped, now);
    KeptStaysInOrder(pending + p.events, now);
    HeldMoves(held, id, p');
    if !ledger.overlapped {
      LineOf(pending, held, ledger, id);
      ThinnedStaysInLine(Sent(ledger.batches), pending + p.events, p'.events, Outside(ledger));
      assert [] + p'.events == p'.events;
      LineWith([], held, ledger, id, p');
    }
  }

  lemma WriteIsSound(pending: seq<Event>, pendingDropped: nat, sequence: nat, held: map<nat, Poller>, ledger: Ledger,
      id: nat, link: Link)
    requires Sound(pending, pendingDropped, sequence, held, ledger)
    requires id in held && held[id].took && held[id].raw == []
    ensures Sound(pending, pendingDropped, sequence, if link.Accepted? then held[id := Remaining(held[id])] else held,
              Written(ledger, held[id], link))
  {
    hide Sum, Sent, SentDrops, Afloat, InLine, Increasing, Lined;
    var p, chunk := held[id], Chunk(held[id]);
    var sent, rest := Sent(ledger.batches), p.events[|chunk|..];
    BatchAppended(ledger.batches, Delta(chunk, p.dropped));
    HeldMoves(held, id, Remaining(p));
    assert p.events == chunk + rest;
    if !ledger.overlapped {
      LineOf(pending, held, ledger, id);
      assert pending + p.events == p.events && pending + rest == rest;
      ArrivalKeepsLine(sent, chunk, rest, ledger.received, ledger.afloat);
      AfloatAfterWrite(ledger, p, link);
      LineWith(pending, held, Written(ledger, p, link), id, if link.Accepted? then Remaining(p) else p);
      assert held[id := p] == held;
    }
  }

  lemma AfloatAfterWrite(ledger: Ledger, p: Poller, link: Link)
    requires Afloat(ledger.received, ledger.afloat, ledger.belated) && Increasing(Chunk(p))
    requires StepsBackAreRepeats(ledger.received) ==> StepsBackAreRepeats(ledger.received + Chunk(p))
    ensures var l := Written(ledger, p, link); Afloat(l.received, l.afloat, l.belated)
  {
  }

  lemma ArriveIsSound(pending: seq<Event>, pendingDropped: nat, sequence: nat, held: map<nat, Poller>, ledger: Ledger,
      i: nat)
    requires Sound(pending, pendingDropped, sequence, held, ledger) && i < |ledger.afloat|
    ensures Sound(pending, pendingDropped, sequence, held, Arrived(ledger, i))
    ensures !ledger.overlapped ==>
              (StepsBackAreRepeats(Arrived(ledger, i).received) <==>
               StepsBackAreRepeats(ledger.received) && Echoes(ledger.afloat[i], ledger.received))
  {
    hide Sum, Sent, SentDrops, StepsBackAreRepeats, InLine, Increasing, Echoes;
    var sent := Sent(ledger.batches);
    if !ledger.overlapped {
      if held == map[] {
        StrayKeepsLine(sent, pending, ledger.received, ledger.afloat, i);
      }
      forall id | id in held
        ensures InLine(sent, pending + held[id].events, Outside(Arrived(ledger, i)))
        ensures StepsBackAreRepeats(Arrived(ledger, i).received) <==>
                StepsBackAreRepeats(ledger.received) && Echoes(ledger.afloat[i], ledger.received)
      {
        StrayKeepsLine(sent, pending + held[id].events, ledger.received, ledger.afloat, i);
      }
    }
  }

  lemma CloseIsSound(pending: seq<Event>, pendingDropped: nat, sequence: nat, held: map<nat, Poller>, ledger: Ledger,
      id: nat)
    requires Sound(pending, pendingDropped, sequence, held, ledger) && id in held && Weight(held[id]) == 0
    ensures Sound(pending, pendingDropped, sequence, held - {id}, ledger)
  {
    hide Sum, Sent, SentDrops, Afloat, InLine, Increasing, Lined;
    HeldGone(held, id);
    if !ledger.overlapped {
      LineOf(pending, held, ledger, id);
      assert pending + held[id].events == pending;
      LineWithout(pending, held, ledger, id);
    }
  }

  lemma RequeueIsSound(pending: seq<Event>, pendingDropped: nat, sequence: nat, held: map<nat, Poller>, ledger: Ledger,
      id: nat)
    requires Sound(pending, pendingDropped, sequence, held, ledger) && id in held && held[id].took && held[id].raw == []
    ensures var merged := held[id].events + pending;
            Sound(merged[Overflow(merged)..], pendingDropped + held[id].dropped + Overflow(merged), sequence,
              held - {id}, ledger)
  {
    hide Sum, Sent, SentDrops, Afloat, InLine, Increasing, Lined;
    var p, merged := held[id], held[id].events + pending;
    HeldGone(held, id);
    SuffixStaysInOrder(merged, Overflow(merged));
    if !ledger.overlapped {
      LineOf(pending, held, ledger, id);
      assert merged == p.events == pending + p.events;
      ThinnedStaysInLine(Sent(ledger.batches), merged, merged[Overflow(merged)..], Outside(ledger));
      LineWithout(merged[Overflow(merged)..], held, ledger, id);
    }
  }

  lemma DiscardIsSound(pending: seq<Event>, pendingDropped: nat, sequence: nat, held: map<nat, Poller>, ledger: Ledger)
    requires Sound(pending, pendingDropped, sequence, held, ledger)
    ensures Sound([], 0, sequence, held, ledger.(discarded := ledger.discarded + |pending| + pendingDropped))
  {
    hide Sum, Sent, SentDrops, Afloat, InLine, Increasing;
    if !ledger.overlapped {
      var sent := Sent(ledger.batches);
      if held == map[] {
        SuffixStaysInOrder(pending, |pending|);
        ThinnedStaysInLine(sent, pending, [], Outside(ledger));
      }
      forall id | id in held ensures InLine(sent, [] + held[id].events, Outside(ledger)) {
        var all := pending + held[id].events;
        SuffixStaysInOrder(all, |pending|);
        ThinnedStaysInLine(sent, all, all[|pending|..], Outside(ledger));
        assert all[|pending|..] == [] + held[id].events;
      }
    }
  }

  class Sender {
    var pending: seq<Event>
    var pendingDropped: nat
    var sequence: nat
    var held: map<nat, Poller>   // what each running poller has in hand
    ghost var ledger: Ledger

    ghost predicate Valid()
      reads this
    {
      Sound(pending, pendingDropped, sequence, held, ledger)
    }

    constructor ()
      ensures Valid() && ledger == EMPTY && pending == [] && pendingDropped == 0 && held == map[]
    {
      pending, pendingDropped, sequence, held, ledger := [], 0, 0, map[], EMPTY;
      new;
      EmptySum(Column(held));
    }

    // --- the steps of a poller ---------------------------------------------------

    /** Drains the sources. */
    method Open(id: nat, drained: seq<Event>, sourceDropped: nat)
      requires Valid() && id !in held
      modifies this`held, this`ledger
      ensures Valid() && held == old(held)[id := Poller(drained, [], sourceDropped, false)]
      ensures ledger == old(ledger).(taken := old(ledger).taken + |drained| + sourceDropped,
                                     overlapped := old(ledger).overlapped || old(held) != map[])
    {
      OpenIsSound(pending, pendingDropped, sequence, held, ledger, id, drained, sourceDropped);
      ledger := Opened(ledger, held, |drained| + sourceDropped);
      held := held[id := Poller(drained, [], sourceDropped, false)];
    }

    /** A number is clock based, but always beyond the last one given out. */
    method NextNumber(clock: nat) returns (number: nat)
      modifies this`sequence
      ensures number == (if clock > old(sequence) then clock else old(sequence) + 1) && sequence == number
    {
      number := clock;
      if number <= sequence {
        number := sequence + 1;
      }
      sequence := number;
    }

    /** Numbers the next drained event. */
    method Number(id: nat, clock: nat)
      requires Valid() && id in held && held[id].raw != [] && !held[id].took
      modifies this`sequence, this`held, this`ledger
      ensures Valid() && sequence == if clock > old(sequence) then clock else old(sequence) + 1
      ensures held == old(held)[id := Numbered(old(held)[id], sequence)]
      ensures ledger == old(ledger).(issued := old(ledger).issued + [old(held)[id].raw[0].(number := sequence)])
    {
      hide Sound;
      ghost var was := sequence;
      var number := NextNumber(clock);
      NumberIsSound(pending, pendingDropped, was, held, ledger, id, number);
      ledger := ledger.(issued := ledger.issued + [held[id].raw[0].(number := number)]);
      held := held[id := Numbered(held[id], number)];
    }

    method DropExpired(events: seq<Event>, now: int) returns (kept: seq<Event>, expired: nat)
      ensures kept == Kept(events, now) && |kept| + expired == |events|
    {
      kept, expired := [], 0;
      for i := 0 to |events|
        invariant kept == Kept(events[..i], now) && |kept| + expired == i
      {
        assert events[..i + 1][..i] == events[..i];
        if Expired(events[i], now) {
          expired := expired + 1;
        } else {
          kept := kept + [events[i]];
        }
      }
      assert events[..|events|] == events;
    }

    /** Takes over what waits, ahead of the fresh events, and drops what has expired. */
    method Take(id: nat, now: int)
      requires Valid() && id in held && held[id].raw == [] && !held[id].took
      modifies this`pending, this`pendingDropped, this`held
      ensures Valid() && pending == [] && pendingDropped == 0
      ensures held == old(held)[id := Gathered(old(held)[id], old(pending), old(pendingDropped), now)]
    {
      hide Sound;
      TakeIsSound(pending, pendingDropped, sequence, held, ledger, id, now);
      var p := held[id];
      var kept, expired := DropExpired(pending + p.events, now);
      held := held[id := Poller([], kept, p.dropped + pendingDropped + expired, true)];
      pending, pendingDropped := [], 0;
    }

    /**
     Writes the next message. Where the delivered numbers increase they go on
     doing so exactly if the message is in order and continues them.
     */
    method Write(id: nat, link: Link)
      requires Valid() && id in held && held[id].took && held[id].raw == []
      modifies this`held, this`ledger
      ensures Valid() && ledger == Written(old(ledger), old(held)[id], link)
      ensures held == if link.Accepted? then old(held)[id := Remaining(old(held)[id])] else old(held)
      ensures link.Accepted? ==>
                var sent, chunk := Sent(old(ledger).batches), Chunk(old(held)[id]);
                Increasing(Sent(ledger.batches)) <==>
                && Increasing(sent) && Increasing(chunk)
                && (sent == [] || chunk == [] || sent[|sent| - 1].number < chunk[0].number)
    {
      hide Sound;
      WriteIsSound(pending, pendingDropped, sequence, held, ledger, id, link);
      BatchAppended(ledger.batches, Delta(Chunk(held[id]), held[id].dropped));
      EdgesDecide(Sent(ledger.batches), Chunk(held[id]));
      ledger := Written(ledger, held[id], link);
      if link.Accepted? {
        held := held[id := Remaining(held[id])];
      }
    }

    /**
     A message whose write was refused goes out after all. Under one poller at a
     time every step back stays a repeat exactly if each event of it that is
     behind was received before.
     */
    ghost method Arrive(i: nat)
      requires Valid() && i < |ledger.afloat|
      modifies this`ledger
      ensures Valid() && ledger == Arrived(old(ledger), i)
      ensures !ledger.overlapped ==>
                (StepsBackAreRepeats(ledger.received) <==>
                 && StepsBackAreRepeats(old(ledger).received)
                 && Echoes(old(ledger).afloat[i], old(ledger).received))
    {
      hide Sound, Echoes, StepsBackAreRepeats;
      ArriveIsSound(pending, pendingDropped, sequence, held, ledger, i);
      ledger := Arrived(ledger, i);
    }

    /** The poll is over: everything was written. */
    method Close(id: nat)
      requires Valid() && id in held && Weight(held[id]) == 0
      modifies this`held
      ensures Valid() && held == old(held) - {id}
    {
      CloseIsSound(pending, pendingDropped, sequence, held, ledger, id);
      held := held - {id};
    }

    /** What was not delivered goes ahead of what waits; the oldest beyond the limit are counted as lost. */
    method Requeue(id: nat)
      requires Valid() && id in held && held[id].took && held[id].raw == []
      modifies this`pending, this`pendingDropped, this`held
      ensures Valid() && held == old(held) - {id}
      ensures var merged := old(held)[id].events + old(pending);
              var overflow := Overflow(merged);
              pending == merged[overflow..] && pendingDropped == old(pendingDropped) + old(held)[id].dropped + overflow
      ensures |pending| == if |old(held)[id].events + old(pending)| > 4096 then 4096
                           else |old(held)[id].events + old(pending)|
    {
      assert |pending| <= MAX_PENDING;
      hide Sound;
      RequeueIsSound(pending, pendingDropped, sequence, held, ledger, id);
      var p := held[id];
      held := held - {id};
      if |p.events| == 0 && p.dropped == 0 {
        assert p.events + pending == pending;
        return;
      }
      var merged := p.events + pending;
      pendingDropped := pendingDropped + p.dropped;
      var overflow := |merged| - MAX_PENDING;
      if overflow > 0 {
        pendingDropped := pendingDropped + overflow;
        merged := merged[overflow..];
      }
      pending := merged;
    }

    /** With the audit off whatever waits is thrown away. */
    method Discard()
      requires Valid()
      modifies this`pending, this`pendingDropped, this`ledger
      ensures Valid() && pending == [] && pendingDropped == 0
      ensures ledger == old(ledger).(discarded := old(ledger).discarded + |old(pending)| + old(pendingDropped))
    {
      hide Sound;
      DiscardIsSound(pending, pendingDropped, sequence, held, ledger);
      ledger := ledger.(discarded := ledger.discarded + |pending| + pendingDropped);
      pending, pendingDropped := [], 0;
    }

    // --- a poll from beginning to end ---------------------------------------------

    /** Gathers what the sources have and what an earlier link did not take, oldest first. */
    method Collect(id: nat, drained: seq<Event>, clocks: seq<nat>, sourceDropped: nat, now: int)
      requires Valid() && id !in held && |clocks| == |drained|
      modifies this
      ensures Valid() && pending == [] && pendingDropped == 0 && id in held && held == old(held)[id := held[id]]
      ensures held[id].took && held[id].raw == []
      ensures ledger.(issued := old(ledger).issued) == Opened(old(ledger), old(held), |drained| + sourceDropped)
      ensures exists numbered :: IsNumbering(numbered, drained) && held[id].events == Kept(old(pending) + numbered, now)
    {
      hide Sound;
      Open(id, drained, sourceDropped);
      assert drained[0..] == drained;
      for i := 0 to |drained|
        invariant Valid() && id in held && held == old(held)[id := held[id]]
        invariant pending == old(pending) && pendingDropped == old(pendingDropped)
        invariant held[id] == Poller(drained[i..], held[id].events, sourceDropped, false)
        invariant IsNumbering(held[id].events, drained[..i])
        invariant ledger.(issued := old(ledger).issued) == Opened(old(ledger), old(held), |drained| + sourceDropped)
      {
        Number(id, clocks[i]);
      }
      assert drained[..|drained|] == drained;
      Take(id, now);
    }

    /** One message of a poll: whether its write succeeded, and what is left to do. */
    method WriteNext(id: nat) returns (ok: bool)
      requires Valid() && id in held && held[id].took && held[id].raw == []
      modifies this`held, this`ledger
      ensures Valid() && ledger.taken == old(ledger).taken && ledger.discarded == old(ledger).discarded
      ensures ledger.overlapped == old(ledger).overlapped
      ensures ledger.refusals == old(ledger).refusals + if ok then 0 else 1
      ensures ok ==> && held == old(held)[id := Remaining(old(held)[id])]
                     && Sent(ledger.batches) == Sent(old(ledger).batches) + Chunk(old(held)[id])
      ensures !ok ==> held == old(held) && ledger.batches == old(ledger).batches
    {
      hide Sound, Sent, Increasing, Chunk;
      var link: Link := *;
      BatchAppended(ledger.batches, Delta(Chunk(held[id]), held[id].dropped));
      Write(id, link);
      return link.Accepted?;
    }

    /** Writes what the poller has in contract-sized messages; what is refused goes back to the queue. */
    method Send(id: nat) returns (ok: bool)
      requires Valid() && id in held && held[id].took && held[id].raw == []
      modifies this
      ensures Valid() && held == old(held) - {id} && ledger.taken == old(ledger).taken
      ensures ledger.overlapped == old(ledger).overlapped && ledger.discarded == old(ledger).discarded
      ensures ok <==> ledger.refusals == old(ledger).refusals
      ensures ok ==> Sent(ledger.batches) == Sent(old(ledger).batches) + old(held)[id].events && pending == old(pending)
      ensures !ok ==> exists k :: 0 <= k <= |old(held)[id].events| && SplitAt(old(held)[id].events, k, old(pending),
                                    old(ledger), pending, ledger)
    {
      hide Sound, Sent, Increasing;
      ghost var all := held[id].events;
      ghost var done := 0;
      var more := true;
      while more
        invariant Valid() && id in held && held[id].took && held[id].raw == [] && held == old(held)[id := held[id]]
        invariant pending == old(pending) && ledger.taken == old(ledger).taken
        invariant ledger.refusals == old(ledger).refusals
        invariant ledger.overlapped == old(ledger).overlapped && ledger.discarded == old(ledger).discarded
        invariant 0 <= done <= |all| && held[id].events == all[done..]
        invariant Sent(ledger.batches) == Sent(old(ledger).batches) + all[..done]
        invariant !more ==> held[id].events == [] && held[id].dropped == 0
        decreases |held[id].events|, more
      {
        ghost var chunk := Chunk(held[id]);
        ok := WriteNext(id);
        if !ok {
          Requeue(id);
          assert SplitAt(all, done, old(pending), old(ledger), pending, ledger);
          return;
        }
        assert all[..done] + chunk == all[..done + |chunk|];
        done := done + |chunk|;
        more := |held[id].events| > 0;
      }
      Close(id);
      return true;
    }

    /** One poll while auditing is on. */
    method Poll(id: nat, drained: seq<Event>, clocks: seq<nat>, sourceDropped: nat, now: int) returns (ok: bool)
      requires Valid() && id !in held && |clocks| == |drained|
      modifies this
      ensures Valid() && held == old(held) && ledger.taken == old(ledger).taken + |drained| + sourceDropped
      ensures ledger.overlapped == (old(ledger).overlapped || old(held) != map[])
      ensures ok <==> ledger.refusals == old(ledger).refusals
    {
      hide Sound;
      Collect(id, drained, clocks, sourceDropped, now);
      if |held[id].events| == 0 && held[id].dropped == 0 {
        Close(id);
        return true;
      }
      ok := Send(id);
    }
  }

  /** The same events, with numbers of their own. */
  ghost predicate IsNumbering(events: seq<Event>, drained: seq<Event>) {
    |events| == |drained| && forall i :: 0 <= i < |events| ==> events[i] == drained[i].(number := events[i].number)
  }

  // --- what one poller at a time rules out --------------------------------------

  lemma KeptOne(e: Event, now: int)
    ensures Kept([e], now) == if Expired(e, now) then [] else [e]
  {
    assert [e][..0] == [];
  }

  /** A poller drains one event while nothing waits. */
  method Fetch(s: Sender, id: nat, e: Event)
    requires s.Valid() && id !in s.held && s.pending == [] && s.pendingDropped == 0 && !Expired(e, 0)
    modifies s
    ensures s.Valid() && s.pending == [] && s.pendingDropped == 0 && s.sequence > old(s.sequence)
    ensures s.held == old(s.held)[id := Poller([], [e.(number := s.sequence)], 0, true)]
    ensures s.ledger == old(s.ledger).(taken := old(s.ledger).taken + 1, issued := s.ledger.issued,
                                       overlapped := old(s.ledger).overlapped || old(s.held) != map[])
  {
    hide Sound, Kept;
    s.Open(id, [e], 0);
    s.Number(id, 0);
    ghost var numbered := e.(number := s.sequence);
    assert s.held[id] == Poller([], [numbered], 0, false);
    assert [] + [numbered] == [numbered];
    KeptOne(numbered, 0);
    s.Take(id, 0);
  }

  /** A poller with nothing fresh takes over the one event that waits, if that has not expired. */
  method Refetch(s: Sender, id: nat, now: int)
    requires s.Valid() && id !in s.held && |s.pending| == 1 && s.pendingDropped == 0
    modifies s
    ensures s.Valid() && s.pending == [] && s.pendingDropped == 0 && s.sequence == old(s.sequence)
    ensures s.held == old(s.held)[id := if Expired(old(s.pending)[0], now) then Poller([], [], 1, true)
                                        else Poller([], old(s.pending), 0, true)]
    ensures s.ledger == old(s.ledger).(overlapped := old(s.ledger).overlapped || old(s.held) != map[])
  {
    hide Sound;
    ghost var events := s.pending;
    s.Open(id, [], 0);
    assert events + [] == events && events[..0] == [];
    assert Kept(events, now) == if Expired(events[0], now) then [] else events;
    s.Take(id, now);
  }

  /** A poller delivers what it has in one message. */
  method Deliver(s: Sender, id: nat)
    requires s.Valid() && id in s.held && s.held[id].took && s.held[id].raw == [] && |s.held[id].events| <= 1
    modifies s
    ensures s.Valid() && s.held == old(s.held) - {id} && s.pending == old(s.pending)
    ensures s.pendingDropped == old(s.pendingDropped) && s.sequence == old(s.sequence)
    ensures Sent(s.ledger.batches) == Sent(old(s.ledger).batches) + old(s.held)[id].events
    ensures s.ledger == old(s.ledger).(batches := s.ledger.batches,
                                       received := old(s.ledger).received + old(s.held)[id].events)
  {
    hide Sound, Increasing, Sent;
    ghost var p := s.held[id];
    assert Chunk(p) == p.events && Remaining(p) == Poller([], [], 0, true);
    BatchAppended(s.ledger.batches, Delta(p.events, p.dropped));
    s.Write(id, Accepted);
    assert s.held[id] == Poller([], [], 0, true);
    s.Close(id);
  }

  /** A poller fails with the one event it has, while nothing waits. */
  method Fail(s: Sender, id: nat)
    requires s.Valid() && id in s.held && s.held[id].took && s.held[id].raw == []
    requires |s.held[id].events| == 1 && s.held[id].dropped == 0 && s.pending == [] && s.pendingDropped == 0
    modifies s
    ensures s.Valid() && s.held == old(s.held) - {id} && s.pending == old(s.held)[id].events && s.pendingDropped == 0
    ensures s.sequence == old(s.sequence)
    ensures s.ledger == old(s.ledger).(refusals := old(s.ledger).refusals + 1,
                                       afloat := old(s.ledger).afloat + [old(s.held)[id].events])
  {
    hide Sound, Increasing, Sent;
    s.Write(id, Refused);
    s.Requeue(id);
  }

  /** An old connection fails after the next one has delivered: its events come later with lower numbers. */
  method OverlapReorders() returns (s: Sender)
    ensures s.Valid() && s.ledger.overlapped && |Sent(s.ledger.batches)| == 2
    ensures Sent(s.ledger.batches)[0].number > Sent(s.ledger.batches)[1].number
  {
    hide Sound, Increasing;
    s := new Sender();
    Fetch(s, 1, Event(0, Some(0), "a"));
    Fetch(s, 2, Event(0, Some(0), "b"));
    Deliver(s, 2);
    Fail(s, 1);
    Refetch(s, 3, 0);
    Deliver(s, 3);
  }

  /** A message whose write was refused had gone out and is sent again: its events are received twice. */
  method StrayRepeats() returns (s: Sender)
    ensures s.Valid() && !s.ledger.overlapped && |s.ledger.received| == 2
    ensures s.ledger.received[0] == s.ledger.received[1]
  {
    hide Sound, Increasing;
    s := new Sender();
    Fetch(s, 1, Event(0, Some(0), "a"));
    Fail(s, 1);
    s.Arrive(0);
    Refetch(s, 2, 0);
    Deliver(s, 2);
  }

  /** A message is refused, its copy expires in the queue, and it may still go out. */
  method LeaveAfloat() returns (s: Sender)
    ensures fresh(s) && s.Valid() && s.pending == [] && s.pendingDropped == 0 && s.held == map[]
    ensures s.ledger.received == [] && |s.ledger.afloat| == 1 && |s.ledger.afloat[0]| == 1
    ensures s.ledger.afloat[0][0].number <= s.sequence && !s.ledger.overlapped
  {
    hide Sound, Increasing, Sent;
    s := new Sender();
    Fetch(s, 1, Event(0, Some(0), "a"));
    Fail(s, 1);
    Refetch(s, 2, MAX_AGE + 1);
    Deliver(s, 2);
  }

  /** It goes out after a later event: a step back that is new. */
  method BelatedStray() returns (s: Sender)
    ensures s.Valid() && !s.ledger.overlapped && s.ledger.belated && |s.ledger.received| == 2
    ensures s.ledger.received[0].number > s.ledger.received[1].number
    ensures !StepsBackAreRepeats(s.ledger.received)
  {
    hide Sound, Increasing, Sent;
    s := LeaveAfloat();
    Fetch(s, 3, Event(0, Some(0), "b"));
    Deliver(s, 3);
    ghost var first, second := s.ledger.afloat[0][0], s.ledger.received[0];
    assert first in s.ledger.afloat[0] && second in s.ledger.received;
    s.Arrive(0);
  }
}
