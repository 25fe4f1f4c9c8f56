/**
 The stop-and-wait contract between a collector and whoever drains it
 (internal/activity/delivery.go): one immutable pending report, numbered from 1
 within a boot, re-read until it is acknowledged.
 */
module DeliveryProtocol {
  import opened ActivityReport
  import opened Wrappers

  /** What the far side can observe of a collector. No boot means never read. */
  datatype Endpoint = Endpoint(boot: string, sequence: nat, pending: Option<Report>)

  const UNREAD := Endpoint("", 0, None)

  ghost predicate WellNumbered(e: Endpoint, stream: string) {
    && (e.boot == "" ==> e == UNREAD)
    && (e.pending.Some? ==>
          var r := e.pending.value; r.boot == e.boot && r.sequence == e.sequence > 0 && r.stream == stream)
  }

  /** A read changes nothing, or freezes the next number of the same boot. */
  ghost predicate ReadStep(e: Endpoint, e': Endpoint, stream: string, r: Option<Report>) {
    || (e' == e && (r.None? || r == e.pending))
    || (&& e.pending.None? && r.Some?
        && e' == Endpoint(r.value.boot, e.sequence + 1, r)
        && r.value.boot != "" && (e.boot != "" ==> r.value.boot == e.boot)
        && r.value.sequence == e.sequence + 1 && r.value.stream == stream)
  }

  function AckStep(e: Endpoint, boot: string, sequence: nat): Endpoint {
    if e.pending.Some? && e.boot == boot && e.pending.value.sequence == sequence then e.(pending := None) else e
  }
}
