/**
 The whole way of a minute: the collector accounts for it (internal/activity),
 and the relay keeps or settles the report that does
 (internal/agent/account_activity.go).
 */
module ActivityPipeline {
  import opened ActivityRelay
  import opened ActivityReport
  import opened ActivityStream
  import opened DeliveryProtocol
  import opened Wrappers

  /** What a collector shows of itself. */
  function View(d: Delivery): Endpoint {
    Endpoint(d.boot, d.sequence, d.pending)
  }

  /** The relay has read every report this collector has issued. */
  ghost predicate Connected(issued: seq<Report>, stream: string, past: ActivityRelay.Past) {
    forall i :: 0 <= i < |issued| ==> issued[i].stream == stream && issued[i] in past.issued
  }

  /** A read that freezes a report, on both sides of it. */
  lemma ReadStaysConnected(issued: seq<Report>, stream: string, past: ActivityRelay.Past, r: Report)
    requires Connected(issued, stream, past) && r.stream == stream
    ensures Connected(issued + [r], stream, Seen(past, Some(r)))
  {
  }

  /** Where a report can be that its collector has issued. */
  predicate Kept(r: Report, file: seq<Report>, past: ActivityRelay.Past, pending: Option<Report>) {
    pending == Some(r) || r in file || r in past.taken || r in past.discarded
  }

  lemma IssuedReportIsKept(file: seq<Report>, kernel: Endpoint, ssh: Endpoint, boots: set<string>,
      past: ActivityRelay.Past, d: Delivery, issued: seq<Report>, reach: seq<nat>, first: nat, stream: string, i: nat)
    requires Sound(file, kernel, ssh, boots, past) && StreamAccounted(d, issued, reach, first) && d.boot != ""
    requires Connected(issued, stream, past) && i < |issued|
    requires (stream == KERNEL && kernel == View(d)) || (stream == SSH && ssh == View(d))
    ensures Kept(issued[i], file, past, d.pending)
  {
    hide WellFormed, Accounted;
    var trail := past.settled + file;
    if d.pending.None? || i < |issued| - 1 {
      assert 1 <= i + 1 <= Released(View(d));
      assert Holds(trail, d.boot, stream, i + 1);
      var j :| 0 <= j < |trail| && trail[j].boot == d.boot && trail[j].stream == stream && trail[j].sequence == i + 1;
      assert trail[j] in trail && SameId(trail[j], issued[i]);
      assert issued[i] in past.settled || issued[i] in file;
    }
  }

  /**
   Every minute the collector of a boot has passed is answered for by a report,
   its own or an explicit gap, that is in the durable file, was taken by the
   Controller, was discarded when the audit was switched off, or is still pending
   at the collector.
   */
  lemma AccountedMinuteIsKept(file: seq<Report>, kernel: Endpoint, ssh: Endpoint, boots: set<string>,
      past: ActivityRelay.Past, d: Delivery, issued: seq<Report>, reach: seq<nat>, first: nat, stream: string, m: nat)
    requires Sound(file, kernel, ssh, boots, past) && StreamAccounted(d, issued, reach, first) && d.boot != ""
    requires Connected(issued, stream, past) && m % 60 == 0 && first <= m < d.next
    requires (stream == KERNEL && kernel == View(d)) || (stream == SSH && ssh == View(d))
    ensures exists i :: && 0 <= i < |issued| && Covers(issued, reach, i, m) && IsEntry(issued[i], reach[i])
                        && Kept(issued[i], file, past, d.pending)
  {
    hide Sound;
    assert Accounted(issued, reach, m);
    var i :| 0 <= i < |issued| && Covers(issued, reach, i, m);
    IssuedReportIsKept(file, kernel, ssh, boots, past, d, issued, reach, first, stream, i);
  }
}
