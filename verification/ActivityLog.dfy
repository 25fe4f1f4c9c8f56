/**
 The reference semantics of account activity: what a minute of the log of all
 records amounts to, once the collector's capacity limits and saturating
 counters are applied. The ring of internal/activity/activity.go is proved to
 hold exactly these minutes (module ActivityCollector).
 */
module ActivityLog {

  const MAX_UINT64: nat := 0xFFFF_FFFF_FFFF_FFFF
  const MAX_INT64: nat := 0x7FFF_FFFF_FFFF_FFFF
  const CAPACITY: nat := 4096
  const PER_ACCOUNT_CAPACITY: nat := 32
  const WINDOW: nat := 180

  type uint64 = x: nat | x <= MAX_UINT64

  /** A network group; an address that is not public has no group. */
  datatype Source = Unknown | Network(prefix: string)

  datatype Identity = Identity(user: int, inbound: int, path: int, source: Source)

  /** One payload event: who, when (Unix seconds), and how many bytes each way. */
  datatype Rec = Rec(id: Identity, unix: nat, up: uint64, down: uint64)

  /** The uint16 activity mask is kept as the set of its one bits. */
  datatype Counters = Counters(bits: set<nat>, up: uint64, down: uint64)

  /** What one slot holds for its minute. */
  datatype Content = Content(
    buckets: map<Identity, Counters>, accounts: map<int, nat>, dropped: uint64, unknown: uint64)

  const EMPTY := Content(map[], map[], 0, 0)

  function Minute(unix: nat): nat {
    unix / 60 * 60
  }

  function Slice(unix: nat): nat {
    (unix - Minute(unix)) / 5
  }

  /** Twelve slices of five seconds tile each minute. */
  lemma SlicesTileMinutes(unix: nat)
    ensures Minute(unix) % 60 == 0 && Minute(unix) <= unix < Minute(unix) + 60
    ensures Slice(unix) < 12 && Minute(unix) + 5 * Slice(unix) <= unix < Minute(unix) + 5 * Slice(unix) + 5
  {
  }

  function Saturate(x: nat): uint64 {
    if x > MAX_UINT64 then MAX_UINT64 else x
  }

  /** Saturating uint64 addition. */
  function Add(a: uint64, b: uint64): uint64 {
    if MAX_UINT64 - a < b then MAX_UINT64 else a + b
  }

  function AccountSize(c: Content, user: int): nat {
    if user in c.accounts then c.accounts[user] else 0
  }

  predicate Full(c: Content, user: int) {
    |c.buckets| >= CAPACITY || AccountSize(c, user) >= PER_ACCOUNT_CAPACITY
  }

  function Bump(b: Counters, r: Rec): Counters {
    Counters(b.bits + {Slice(r.unix)}, Add(b.up, r.up), Add(b.down, r.down))
  }

  /** The effect of one record on the minute it belongs to. */
  function Apply(c: Content, r: Rec): Content {
    if r.id.source.Unknown? then
      c.(unknown := Add(c.unknown, 1))
    else if r.id in c.buckets then
      c.(buckets := c.buckets[r.id := Bump(c.buckets[r.id], r)])
    else if Full(c, r.id.user) then
      c.(dropped := Add(c.dropped, 1))
    else
      c.(buckets := c.buckets[r.id := Bump(Counters({}, 0, 0), r)],
         accounts := c.accounts[r.id.user := AccountSize(c, r.id.user) + 1])
  }

  /** The unbounded meaning of minute `m`: every record of the log, in order. */
  function Fold(log: seq<Rec>, m: nat): Content {
    if log == [] then EMPTY
    else
      var c := Fold(log[..|log| - 1], m);
      var r := log[|log| - 1];
      if Minute(r.unix) == m then Apply(c, r) else c
  }

  // ---------------------------------------------------------------------------
  // Closed forms that do not mention the fold
  // ---------------------------------------------------------------------------

  predicate Hits(r: Rec, m: nat, id: Identity) {
    Minute(r.unix) == m && r.id == id
  }

  function Hit(log: seq<Rec>, m: nat, id: Identity): bool {
    exists i :: 0 <= i < |log| && Hits(log[i], m, id)
  }

  function UpSum(log: seq<Rec>, m: nat, id: Identity): nat {
    if log == [] then 0
    else UpSum(log[..|log| - 1], m, id) + (if Hits(log[|log| - 1], m, id) then log[|log| - 1].up else 0)
  }

  function DownSum(log: seq<Rec>, m: nat, id: Identity): nat {
    if log == [] then 0
    else DownSum(log[..|log| - 1], m, id) + (if Hits(log[|log| - 1], m, id) then log[|log| - 1].down else 0)
  }

  /** The five-second slices in which `id` moved payload during minute `m`. */
  function SlicesHit(log: seq<Rec>, m: nat, id: Identity): (slices: set<nat>)
    ensures forall k :: k in slices <==> exists i :: 0 <= i < |log| && Hits(log[i], m, id) && Slice(log[i].unix) == k
  {
    set i | 0 <= i < |log| && Hits(log[i], m, id) :: Slice(log[i].unix)
  }

  function UnknownCount(log: seq<Rec>, m: nat): nat {
    if log == [] then 0
    else
      var r := log[|log| - 1];
      UnknownCount(log[..|log| - 1], m) + (if Minute(r.unix) == m && r.id.source.Unknown? then 1 else 0)
  }

  /** Records of minute `m` with a known source whose identity is outside `kept`. */
  function LostCount(log: seq<Rec>, m: nat, kept: set<Identity>): nat {
    if log == [] then 0
    else
      var r := log[|log| - 1];
      LostCount(log[..|log| - 1], m, kept)
      + (if Minute(r.unix) == m && r.id.source.Network? && r.id !in kept then 1 else 0)
  }

  ghost function BucketsOf(c: Content, user: int): set<Identity> {
    set id | id in c.buckets && id.user == user
  }

  /** `accounts[u]` is the number of buckets of `u`, and both limits hold. */
  ghost predicate Bounded(c: Content) {
    && |c.buckets| <= CAPACITY
    && (forall user :: AccountSize(c, user) == |BucketsOf(c, user)|)
    && (forall user :: AccountSize(c, user) <= PER_ACCOUNT_CAPACITY)
  }

  /** An identity is either counted in full or not at all; never in part. */
  ghost predicate CountedOrShutOut(c: Content, log: seq<Rec>, m: nat, id: Identity) {
    if id in c.buckets then
      && id.source.Network?
      && Hit(log, m, id)
      && c.buckets[id].up == Saturate(UpSum(log, m, id))
      && c.buckets[id].down == Saturate(DownSum(log, m, id))
      && c.buckets[id].bits == SlicesHit(log, m, id)
    else
      id.source.Network? && Hit(log, m, id) ==> Full(c, id.user)
  }

  lemma {:induction false} FoldIsBounded(log: seq<Rec>, m: nat)
    ensures Bounded(Fold(log, m))
  {
    if log == [] {
      forall user ensures BucketsOf(EMPTY, user) == {} {}
    } else {
      var c, r := Fold(log[..|log| - 1], m), log[|log| - 1];
      FoldIsBounded(log[..|log| - 1], m);
      if Minute(r.unix) == m {
        ApplyKeepsBounded(c, r);
      }
    }
  }

  lemma ApplyKeepsBounded(c: Content, r: Rec)
    requires Bounded(c)
    ensures Bounded(Apply(c, r))
  {
    hide Bump;
    var d := Apply(c, r);
    forall user ensures AccountSize(d, user) == |BucketsOf(d, user)| <= PER_ACCOUNT_CAPACITY {
      assert AccountSize(c, user) == |BucketsOf(c, user)|;
      if d.buckets.Keys == c.buckets.Keys {
        assert BucketsOf(d, user) == BucketsOf(c, user);
      } else if user == r.id.user {
        assert BucketsOf(d, user) == BucketsOf(c, user) + {r.id};
      } else {
        assert BucketsOf(d, user) == BucketsOf(c, user);
      }
    }
    assert d.buckets.Keys == c.buckets.Keys || d.buckets.Keys == c.buckets.Keys + {r.id};
  }

  lemma {:induction false} NoHitNoSum(log: seq<Rec>, m: nat, id: Identity)
    requires !Hit(log, m, id)
    ensures UpSum(log, m, id) == 0 && DownSum(log, m, id) == 0
    ensures SlicesHit(log, m, id) == {}
  {
    if log != [] {
      var front := log[..|log| - 1];
      forall i | 0 <= i < |front| ensures !Hits(front[i], m, id) {
        assert front[i] == log[i];
      }
      NoHitNoSum(front, m, id);
      assert !Hits(log[|log| - 1], m, id);
    }
  }

  /** Appending a record adds it to exactly the identity and slice it hits. */
  lemma HitExtends(log: seq<Rec>, r: Rec, m: nat, id: Identity)
    ensures Hit(log + [r], m, id) <==> Hit(log, m, id) || Hits(r, m, id)
    ensures SlicesHit(log + [r], m, id) ==
            SlicesHit(log, m, id) + (if Hits(r, m, id) then {Slice(r.unix)} else {})
  {
    var all := log + [r];
    forall i | 0 <= i < |log| ensures all[i] == log[i] {}
    assert all[|log|] == r;
    if Hit(log, m, id) {
      var i :| 0 <= i < |log| && Hits(log[i], m, id);
      assert Hits(all[i], m, id);
    }
    forall k | k in SlicesHit(log, m, id) ensures k in SlicesHit(all, m, id) {
      var i :| 0 <= i < |log| && Hits(log[i], m, id) && Slice(log[i].unix) == k;
      assert Hits(all[i], m, id);
    }
    if Hits(r, m, id) {
      assert Slice(all[|log|].unix) in SlicesHit(all, m, id);
    }
  }

  /** The fold counts every identity in full or shuts it out for the whole minute. */
  lemma {:induction false} FoldCountsInFull(log: seq<Rec>, m: nat, id: Identity)
    ensures CountedOrShutOut(Fold(log, m), log, m, id)
  {
    if log != [] {
      var front, r := log[..|log| - 1], log[|log| - 1];
      FoldCountsInFull(front, m, id);
      assert log == front + [r];
      HitExtends(front, r, m, id);
      if Minute(r.unix) == m {
        ApplyCountsInFull(Fold(front, m), front, r, m, id);
      }
    }
  }

  lemma ApplyCountsInFull(c: Content, front: seq<Rec>, r: Rec, m: nat, id: Identity)
    requires CountedOrShutOut(c, front, m, id)
    requires Minute(r.unix) == m
    ensures CountedOrShutOut(Apply(c, r), front + [r], m, id)
  {
    if r.id != id || r.id.source.Unknown? {
      SameCounts(c, Apply(c, r), r, id);
      HitExtends(front, r, m, id);
      assert (front + [r])[..|front|] == front;
    } else if id in Apply(c, r).buckets {
      OwnRecordCounts(c, front, r, m);
    } else {
      HitExtends(front, r, m, id);
    }
  }

  lemma OwnRecordCounts(c: Content, front: seq<Rec>, r: Rec, m: nat)
    requires CountedOrShutOut(c, front, m, r.id)
    requires Minute(r.unix) == m && r.id in Apply(c, r).buckets && r.id.source.Network?
    ensures CountedOrShutOut(Apply(c, r), front + [r], m, r.id)
  {
    var log, id := front + [r], r.id;
    assert log[..|log| - 1] == front;
    HitExtends(front, r, m, id);
    var b := if id in c.buckets then c.buckets[id] else Counters({}, 0, 0);
    if id !in c.buckets {
      NoHitNoSum(front, m, id);
    }
    assert Apply(c, r).buckets[id] == Bump(b, r);
  }

  lemma SameCounts(c: Content, d: Content, r: Rec, id: Identity)
    requires d == Apply(c, r) && (r.id != id || r.id.source.Unknown?)
    ensures id in d.buckets <==> id in c.buckets
    ensures id in c.buckets ==> d.buckets[id] == c.buckets[id]
    ensures Full(c, id.user) ==> Full(d, id.user)
  {
    if r.id.source.Network? {
      if r.id in c.buckets {
        assert d.buckets.Keys == c.buckets.Keys;
      } else if !Full(c, r.id.user) {
        assert d.buckets.Keys == c.buckets.Keys + {r.id};
      }
    }
  }

  lemma {:induction false} LostIgnoresUnseen(log: seq<Rec>, m: nat, kept: set<Identity>, id: Identity)
    requires !Hit(log, m, id)
    ensures LostCount(log, m, kept + {id}) == LostCount(log, m, kept)
  {
    if log != [] {
      var front := log[..|log| - 1];
      forall i | 0 <= i < |front| ensures !Hits(front[i], m, id) {
        assert front[i] == log[i];
      }
      LostIgnoresUnseen(front, m, kept, id);
      assert !Hits(log[|log| - 1], m, id);
    }
  }

  /** `dropped` and `unknown` count exactly the records that reached no bucket. */
  lemma {:induction false} FoldAccountsForLosses(log: seq<Rec>, m: nat)
    ensures Fold(log, m).dropped == Saturate(LostCount(log, m, Fold(log, m).buckets.Keys))
    ensures Fold(log, m).unknown == Saturate(UnknownCount(log, m))
  {
    if log != [] {
      var front, r := log[..|log| - 1], log[|log| - 1];
      var c, d := Fold(front, m), Fold(log, m);
      FoldAccountsForLosses(front, m);
      if Minute(r.unix) == m && r.id.source.Network? && r.id !in c.buckets && !Full(c, r.id.user) {
        FoldCountsInFull(front, m, r.id);
        LostIgnoresUnseen(front, m, c.buckets.Keys, r.id);
        assert d.buckets.Keys == c.buckets.Keys + {r.id};
      } else {
        assert d.buckets.Keys == c.buckets.Keys;
      }
    }
  }

  lemma {:induction false} LostMeansUncounted(log: seq<Rec>, m: nat, kept: set<Identity>, i: nat)
    requires i < |log| && Minute(log[i].unix) == m
    requires LostCount(log, m, kept) == 0 && UnknownCount(log, m) == 0
    ensures log[i].id in kept
  {
    if i < |log| - 1 {
      LostMeansUncounted(log[..|log| - 1], m, kept, i);
    }
  }

  /**
   With no loss reported, the buckets are exactly the identities that moved
   payload in the minute.
   */
  lemma LosslessFoldIsExact(log: seq<Rec>, m: nat)
    requires Fold(log, m).dropped == 0 && Fold(log, m).unknown == 0
    ensures forall id :: id in Fold(log, m).buckets <==> Hit(log, m, id)
  {
    var c := Fold(log, m);
    FoldAccountsForLosses(log, m);
    forall id ensures id in c.buckets <==> Hit(log, m, id) {
      FoldCountsInFull(log, m, id);
      if Hit(log, m, id) {
        var i :| 0 <= i < |log| && Hits(log[i], m, id);
        LostMeansUncounted(log, m, c.buckets.Keys, i);
      }
    }
  }
}
