/**
 Active-session bookkeeping of internal/agent/connection_audit.go and the
 generation switch of internal/agent/activity_collection.go. Session objects are
 kept in a table so that "unfinished" can be counted.
 */
module ConnectionAudit {
  import opened Sums
  import opened Wrappers

  const MAX_BUCKETS: nat := 2048

  /** A device when one is known, otherwise the source address. */
  datatype Identity = Device(user: int, hash: string) | Legacy(user: int, source: string)

  datatype Key = Key(
    generation: nat, user: int, inbound: int, path: int, device: string, source: string, network: string)

  predicate IsSpace(c: char) {
    c in {' ', '\t', '\n', '\r', '\U{000B}', '\U{000C}'}
  }

  /** strings.TrimSpace, for ASCII. */
  function Trim(s: string): string {
    if s == [] then []
    else if IsSpace(s[0]) then Trim(s[1..])
    else if IsSpace(s[|s| - 1]) then Trim(s[..|s| - 1])
    else s
  }

  function IdentityOf(k: Key): Identity {
    if Trim(k.device) != "" then Device(k.user, Trim(k.device)) else Legacy(k.user, Trim(k.source))
  }

  predicate Blank(s: string) {
    forall i :: 0 <= i < |s| ==> IsSpace(s[i])
  }

  /** What is left begins and ends with something else than a space, and only spaces are gone. */
  lemma {:induction false} TrimStrips(s: string) returns (i: nat, j: nat)
    ensures i <= j <= |s| && Trim(s) == s[i..j] && Blank(s[..i]) && Blank(s[j..])
    ensures i < j ==> !IsSpace(s[i]) && !IsSpace(s[j - 1])
  {
    i, j := 0, |s|;
    if s != [] {
      if IsSpace(s[0]) {
        i, j := TrimStrips(s[1..]);
        i, j := i + 1, j + 1;
        assert s[1..][i - 1..j - 1] == s[i..j] && s[..i] == [s[0]] + s[1..][..i - 1] && s[1..][j - 1..] == s[j..];
      } else if IsSpace(s[|s| - 1]) {
        var t := s[..|s| - 1];
        i, j := TrimStrips(t);
        assert t[i..j] == s[i..j] && t[..i] == s[..i] && s[j..] == t[j..] + [s[|s| - 1]];
      }
    }
  }

  /** One identity: the same user with the same device, or without any device from the same source. */
  lemma SameIdentityIff(a: Key, b: Key)
    ensures IdentityOf(a) == IdentityOf(b) <==>
              && a.user == b.user
              && (Trim(a.device) != [] ==> Trim(a.device) == Trim(b.device))
              && (Trim(a.device) == [] ==> Trim(b.device) == [] && Trim(a.source) == Trim(b.source))
  {
    hide Trim;
  }

  datatype Bucket = Bucket(active: int, connections: nat, closed: nat, peak: int)

  datatype Item = Item(key: Key, connections: nat, closed: nat, peak: int, activeAtEnd: int)

  datatype Session = Session(key: Key, open: bool)

  datatype CollectionPolicy = CollectionPolicy(revision: int, settings: string)

  // ---------------------------------------------------------------------------
  // What the tables must say
  // ---------------------------------------------------------------------------

  /** The unfinished sessions on a bucket. */
  ghost function OpenOn(sessions: map<nat, Session>, k: Key): set<nat> {
    set h | h in sessions && sessions[h] == Session(k, true)
  }

  ghost function Shares(buckets: map<Key, Bucket>, id: Identity): map<Key, int> {
    map k | k in buckets :: if IdentityOf(k) == id then buckets[k].active else 0
  }

  /** Active sessions of an identity, summed over its buckets. */
  ghost function ActiveOf(buckets: map<Key, Bucket>, id: Identity): int {
    Sum(Shares(buckets, id))
  }

  ghost function Connections(buckets: map<Key, Bucket>): map<Key, int> {
    map k | k in buckets :: buckets[k].connections
  }

  /** Session starts not yet drained. */
  ghost function Starts(buckets: map<Key, Bucket>): int {
    Sum(Connections(buckets))
  }

  ghost function Closings(buckets: map<Key, Bucket>): map<Key, int> {
    map k | k in buckets :: buckets[k].closed
  }

  /** Session ends not yet drained. */
  ghost function Ends(buckets: map<Key, Bucket>): int {
    Sum(Closings(buckets))
  }

  ghost predicate CountsSessions(buckets: map<Key, Bucket>, sessions: map<nat, Session>, generation: nat) {
    && (forall k :: k in buckets ==> k.generation == generation && buckets[k].active == |OpenOn(sessions, k)|)
    && (forall h :: h in sessions && sessions[h].open ==>
          && sessions[h].key.generation <= generation
          && (sessions[h].key.generation == generation ==> sessions[h].key in buckets))
  }

  function ActiveAt(active: map<Identity, int>, id: Identity): int {
    if id in active then active[id] else 0
  }

  ghost predicate SumsByIdentity(buckets: map<Key, Bucket>, active: map<Identity, int>) {
    forall id :: ActiveAt(active, id) == ActiveOf(buckets, id)
  }

  /** An identity has an entry exactly while it has sessions. */
  ghost predicate NoIdleEntry(active: map<Identity, int>) {
    forall id :: id in active ==> active[id] > 0
  }

  /** `peak` is what the buckets of an identity say of the most sessions it had at once. */
  ghost predicate PeakIs(buckets: map<Key, Bucket>, id: Identity, peak: int) {
    && (forall k :: k in buckets && IdentityOf(k) == id ==> buckets[k].peak <= peak)
    && (peak > 0 ==> exists k :: k in buckets && IdentityOf(k) == id && buckets[k].peak == peak)
  }

  /** The largest peak among an identity's buckets is the true peak of its total since the last drain. */
  ghost predicate PeaksAreTrue(buckets: map<Key, Bucket>, active: map<Identity, int>, peaks: map<Identity, int>) {
    forall id :: ActiveAt(active, id) <= ActiveAt(peaks, id) && PeakIs(buckets, id, ActiveAt(peaks, id))
  }

  function Larger(a: int, b: int): int {
    if a > b then a else b
  }

  /** A start raises the true peak exactly if the new total exceeds it, and its bucket shows it. */
  lemma StartKeepsPeaks(buckets: map<Key, Bucket>, active: map<Identity, int>, peaks: map<Identity, int>, key: Key,
      b: Bucket, total: int)
    requires PeaksAreTrue(buckets, active, peaks) && total > 0
    requires b.peak == Larger(total, if key in buckets then buckets[key].peak else 0)
    ensures var id := IdentityOf(key);
            PeaksAreTrue(buckets[key := b], active[id := total], peaks[id := Larger(total, ActiveAt(peaks, id))])
  {
    hide IdentityOf;
    var own, buckets' := IdentityOf(key), buckets[key := b];
    var active', peaks' := active[own := total], peaks[own := Larger(total, ActiveAt(peaks, own))];
    forall id ensures ActiveAt(active', id) <= ActiveAt(peaks', id) && PeakIs(buckets', id, ActiveAt(peaks', id)) {
      assert ActiveAt(active, id) <= ActiveAt(peaks, id) && PeakIs(buckets, id, ActiveAt(peaks, id));
      var peak := ActiveAt(peaks', id);
      if id == own && total >= ActiveAt(peaks, own) {
        assert buckets'[key].peak == peak;
      } else if peak > 0 {
        var k :| k in buckets && IdentityOf(k) == id && buckets[k].peak == peak;
        assert buckets'[k].peak == peak;
      }
    }
  }

  /** Ending a session leaves the peaks alone. */
  lemma EndKeepsPeaks(buckets: map<Key, Bucket>, active: map<Identity, int>, peaks: map<Identity, int>, key: Key,
      b: Bucket,
      active': map<Identity, int>)
    requires PeaksAreTrue(buckets, active, peaks) && key in buckets && b.peak == buckets[key].peak
    requires forall id :: ActiveAt(active', id) <= ActiveAt(active, id)
    ensures PeaksAreTrue(buckets[key := b], active', peaks)
  {
    hide IdentityOf;
    var buckets' := buckets[key := b];
    forall id ensures ActiveAt(active', id) <= ActiveAt(peaks, id) && PeakIs(buckets', id, ActiveAt(peaks, id)) {
      assert ActiveAt(active, id) <= ActiveAt(peaks, id) && PeakIs(buckets, id, ActiveAt(peaks, id));
      if ActiveAt(peaks, id) > 0 {
        var k :| k in buckets && IdentityOf(k) == id && buckets[k].peak == ActiveAt(peaks, id);
        assert buckets'[k].peak == ActiveAt(peaks, id);
      }
    }
  }

  lemma {:induction false} BusyIdentityHasBucket(buckets: map<Key, Bucket>, id: Identity)
    requires ActiveOf(buckets, id) > 0
    ensures exists k :: k in buckets && IdentityOf(k) == id
    decreases |buckets|
  {
    hide Sum;
    if buckets == map[] {
      EmptySum(Shares(buckets, id));
    } else {
      var k := AnyKey(buckets);
      SumWithout(Shares(buckets, id), k);
      assert Shares(buckets, id) - {k} == Shares(buckets - {k}, id);
      if IdentityOf(k) != id {
        BusyIdentityHasBucket(buckets - {k}, id);
      }
    }
  }

  /** After a drain the present totals are the peaks. */
  lemma DrainedPeaks(buckets: map<Key, Bucket>, active: map<Identity, int>)
    requires SumsByIdentity(buckets, active)
    requires forall k :: k in buckets ==> buckets[k].peak == ActiveAt(active, IdentityOf(k))
    ensures PeaksAreTrue(buckets, active, active)
  {
    hide IdentityOf, ActiveOf;
    forall id ensures PeakIs(buckets, id, ActiveAt(active, id)) {
      assert ActiveAt(active, id) == ActiveOf(buckets, id);
      if ActiveAt(active, id) > 0 {
        BusyIdentityHasBucket(buckets, id);
      }
    }
  }

  // --- how one bucket moves the sums ------------------------------------------

  lemma BucketMoves(buckets: map<Key, Bucket>, k: Key, b: Bucket, id: Identity)
    ensures ActiveOf(buckets[k := b], id) == ActiveOf(buckets, id)
            + if IdentityOf(k) == id then b.active - (if k in buckets then buckets[k].active else 0) else 0
  {
    hide Sum;
    var v := if IdentityOf(k) == id then b.active else 0;
    SumUpdate(Shares(buckets, id), k, v);
    assert Shares(buckets[k := b], id) == Shares(buckets, id)[k := v];
  }

  lemma BucketRemoved(buckets: map<Key, Bucket>, k: Key, id: Identity)
    requires k in buckets && buckets[k].active == 0
    ensures ActiveOf(buckets - {k}, id) == ActiveOf(buckets, id)
  {
    hide Sum;
    SumRemove(Shares(buckets, id), k);
    assert Shares(buckets - {k}, id) == Shares(buckets, id) - {k};
  }

  lemma StartsMove(buckets: map<Key, Bucket>, k: Key, b: Bucket)
    ensures Starts(buckets[k := b]) ==
            Starts(buckets) + b.connections - (if k in buckets then buckets[k].connections else 0)
    ensures k in buckets ==> Starts(buckets - {k}) == Starts(buckets) - buckets[k].connections
  {
    hide Sum;
    SumUpdate(Connections(buckets), k, b.connections);
    assert Connections(buckets[k := b]) == Connections(buckets)[k := b.connections];
    SumRemove(Connections(buckets), k);
    assert Connections(buckets - {k}) == Connections(buckets) - {k};
  }

  lemma EndsMove(buckets: map<Key, Bucket>, k: Key, b: Bucket)
    ensures Ends(buckets[k := b]) == Ends(buckets) + b.closed - (if k in buckets then buckets[k].closed else 0)
    ensures k in buckets ==> Ends(buckets - {k}) == Ends(buckets) - buckets[k].closed
  {
    hide Sum;
    SumUpdate(Closings(buckets), k, b.closed);
    assert Closings(buckets[k := b]) == Closings(buckets)[k := b.closed];
    SumRemove(Closings(buckets), k);
    assert Closings(buckets - {k}) == Closings(buckets) - {k};
  }

  lemma {:induction false} DrainedEndsAreZero(buckets: map<Key, Bucket>)
    requires forall k :: k in buckets ==> buckets[k].closed == 0
    ensures Ends(buckets) == 0
    decreases |buckets|
  {
    if buckets == map[] {
      EmptySum(Closings(buckets));
    } else {
      var k := AnyKey(buckets);
      DrainedEndsAreZero(buckets - {k});
      EndsMove(buckets, k, buckets[k]);
    }
  }

  lemma {:induction false} ActiveOfNonNegative(buckets: map<Key, Bucket>, id: Identity)
    requires forall k :: k in buckets ==> buckets[k].active >= 0
    ensures ActiveOf(buckets, id) >= 0
    decreases |buckets|
  {
    if buckets == map[] {
      EmptySum(Shares(buckets, id));
    } else {
      var k := AnyKey(buckets);
      ActiveOfNonNegative(buckets - {k}, id);
      SumWithout(Shares(buckets, id), k);
      assert Shares(buckets, id) - {k} == Shares(buckets - {k}, id);
    }
  }

  /** A busy bucket shows in its identity's total. */
  lemma BusyBucketShows(buckets: map<Key, Bucket>, key: Key)
    requires key in buckets && forall k :: k in buckets ==> buckets[k].active >= 0
    ensures ActiveOf(buckets, IdentityOf(key)) >= buckets[key].active
  {
    var id := IdentityOf(key);
    ActiveOfNonNegative(buckets - {key}, id);
    SumWithout(Shares(buckets, id), key);
    assert Shares(buckets, id) - {key} == Shares(buckets - {key}, id);
  }

  lemma {:induction false} DrainedStartsAreZero(buckets: map<Key, Bucket>)
    requires forall k :: k in buckets ==> buckets[k].connections == 0
    ensures Starts(buckets) == 0
    decreases |buckets|
  {
    if buckets == map[] {
      EmptySum(Connections(buckets));
    } else {
      var k := AnyKey(buckets);
      DrainedStartsAreZero(buckets - {k});
      StartsMove(buckets, k, buckets[k]);
    }
  }

  // --- a session opens and closes ----------------------------------------------

  lemma OpenOnGrows(sessions: map<nat, Session>, key: Key, h: nat, k: Key)
    requires h !in sessions
    ensures OpenOn(sessions[h := Session(key, true)], k) == OpenOn(sessions, k) + if k == key then {h} else {}
  {
  }

  lemma NoBucketNoSession(buckets: map<Key, Bucket>, sessions: map<nat, Session>, generation: nat, key: Key)
    requires CountsSessions(buckets, sessions, generation) && key.generation == generation && key !in buckets
    ensures OpenOn(sessions, key) == {}
  {
  }

  lemma SessionOpens(buckets: map<Key, Bucket>, sessions: map<nat, Session>, generation: nat, key: Key, b: Bucket,
      h: nat)
    requires CountsSessions(buckets, sessions, generation)
    requires h !in sessions && key.generation == generation
    requires b.active == (if key in buckets then buckets[key].active else 0) + 1
    ensures CountsSessions(buckets[key := b], sessions[h := Session(key, true)], generation)
  {
    hide OpenOn;
    var buckets', sessions' := buckets[key := b], sessions[h := Session(key, true)];
    if key !in buckets {
      NoBucketNoSession(buckets, sessions, generation, key);
    }
    assert h !in OpenOn(sessions, key) by { HandleIsNew(sessions, key, h); }
    forall k | k in buckets' ensures buckets'[k].active == |OpenOn(sessions', k)| {
      OpenOnGrows(sessions, key, h, k);
    }
  }

  lemma HandleIsNew(sessions: map<nat, Session>, key: Key, h: nat)
    requires h !in sessions
    ensures h !in OpenOn(sessions, key)
  {
  }

  lemma SessionCloses(buckets: map<Key, Bucket>, sessions: map<nat, Session>, generation: nat, h: nat)
    requires CountsSessions(buckets, sessions, generation) && h in sessions && sessions[h].open
    ensures var key := sessions[h].key;
            var sessions' := sessions[h := Session(key, false)];
            && (key in buckets ==> buckets[key].active > 0)
            && (forall b: Bucket :: key in buckets && b.active == buckets[key].active - 1 ==>
                  CountsSessions(buckets[key := b], sessions', generation))
            && (key !in buckets ==> key.generation < generation && CountsSessions(buckets, sessions', generation))
  {
    var key := sessions[h].key;
    var sessions' := sessions[h := Session(key, false)];
    assert h in OpenOn(sessions, key);
    assert OpenOn(sessions', key) == OpenOn(sessions, key) - {h};
    forall k | k != key ensures OpenOn(sessions', k) == OpenOn(sessions, k) {}
  }

  /** One identity's total moves with its bucket. */
  lemma IdentityMoves(buckets: map<Key, Bucket>, active: map<Identity, int>, active': map<Identity, int>, key: Key,
      b: Bucket)
    requires SumsByIdentity(buckets, active)
    requires forall id :: ActiveAt(active', id) == ActiveAt(active, id)
               + if id == IdentityOf(key) then b.active - (if key in buckets then buckets[key].active else 0) else 0
    ensures SumsByIdentity(buckets[key := b], active')
  {
    hide ActiveOf, IdentityOf;
    forall id ensures ActiveAt(active', id) == ActiveOf(buckets[key := b], id) {
      BucketMoves(buckets, key, b, id);
      assert ActiveAt(active, id) == ActiveOf(buckets, id);
    }
  }

  /** Dropping an idle bucket or refreshing a busy one disturbs neither count. */
  lemma BucketDrained(buckets: map<Key, Bucket>, sessions: map<nat, Session>, generation: nat,
      active: map<Identity, int>, k: Key, b: Bucket)
    requires CountsSessions(buckets, sessions, generation) && SumsByIdentity(buckets, active)
    requires k in buckets && b.active == buckets[k].active
    ensures var buckets' := if b.active == 0 then buckets - {k} else buckets[k := b];
            CountsSessions(buckets', sessions, generation) && SumsByIdentity(buckets', active)
  {
    hide ActiveOf, IdentityOf;
    var buckets' := if b.active == 0 then buckets - {k} else buckets[k := b];
    forall id ensures ActiveAt(active, id) == ActiveOf(buckets', id) {
      assert ActiveAt(active, id) == ActiveOf(buckets, id);
      if b.active == 0 {
        BucketRemoved(buckets, k, id);
      } else {
        BucketMoves(buckets, k, b, id);
      }
    }
    if b.active == 0 {
      assert OpenOn(sessions, k) == {};
      forall h | h in sessions && sessions[h].open ensures sessions[h].key != k {
        assert sessions[h].key == k ==> h in OpenOn(sessions, k);
      }
    }
  }

  /** The tables agree with the sessions and with each other, and are bounded. */
  ghost predicate TablesAgree(buckets: map<Key, Bucket>, sessions: map<nat, Session>, generation: nat,
      active: map<Identity, int>) {
    && CountsSessions(buckets, sessions, generation)
    && SumsByIdentity(buckets, active) && NoIdleEntry(active)
    && |buckets| <= MAX_BUCKETS
  }

  function Opened(buckets: map<Key, Bucket>, key: Key, total: int): Bucket {
    var b := if key in buckets then buckets[key] else Bucket(0, 0, 0, 0);
    Bucket(b.active + 1, b.connections + 1, b.closed, Larger(total, b.peak))
  }

  lemma StartKeepsTables(buckets: map<Key, Bucket>, sessions: map<nat, Session>, generation: nat,
      active: map<Identity, int>, key: Key, h: nat)
    requires TablesAgree(buckets, sessions, generation, active) && h !in sessions && key.generation == generation
    requires key in buckets || |buckets| < MAX_BUCKETS
    ensures var total := ActiveAt(active, IdentityOf(key)) + 1;
            && total > 0
            && TablesAgree(buckets[key := Opened(buckets, key, total)], sessions[h := Session(key, true)], generation,
                 active[IdentityOf(key) := total])
  {
    hide IdentityOf, CountsSessions, SumsByIdentity;
    var id := IdentityOf(key);
    var total := ActiveAt(active, id) + 1;
    var b := Opened(buckets, key, total);
    SessionOpens(buckets, sessions, generation, key, b, h);
    IdentityMoves(buckets, active, active[id := total], key, b);
    assert buckets[key := b].Keys == buckets.Keys + {key};
  }

  function Without(active: map<Identity, int>, id: Identity): map<Identity, int> {
    if ActiveAt(active, id) > 1 then active[id := ActiveAt(active, id) - 1] else active - {id}
  }

  function Closed(b: Bucket): Bucket {
    b.(active := b.active - 1, closed := b.closed + 1)
  }

  lemma EndKeepsTables(buckets: map<Key, Bucket>, sessions: map<nat, Session>, generation: nat,
      active: map<Identity, int>, key: Key, h: nat)
    requires TablesAgree(buckets, sessions, generation, active) && h in sessions && sessions[h] == Session(key, true)
    ensures var sessions' := sessions[h := Session(key, false)];
            if key in buckets then
              var id := IdentityOf(key);
              && TablesAgree(buckets[key := Closed(buckets[key])], sessions', generation, Without(active, id))
              && forall i :: ActiveAt(Without(active, id), i) == ActiveAt(active, i) - if i == id then 1 else 0
            else key.generation < generation && TablesAgree(buckets, sessions', generation, active)
    ensures key in buckets ==> key.generation == generation
  {
    hide IdentityOf, ActiveOf, OpenOn;
    SessionCloses(buckets, sessions, generation, h);
    if key in buckets {
      var id := IdentityOf(key);
      BusyBucketShows(buckets, key);
      assert ActiveAt(active, id) == ActiveOf(buckets, id);
      IdentityMoves(buckets, active, Without(active, id), key, Closed(buckets[key]));
      assert buckets[key := Closed(buckets[key])].Keys == buckets.Keys;
    }
  }

  lemma DrainKeepsTables(buckets: map<Key, Bucket>, sessions: map<nat, Session>, generation: nat,
      active: map<Identity, int>, k: Key, b: Bucket)
    requires TablesAgree(buckets, sessions, generation, active) && k in buckets && b.active == buckets[k].active
    ensures TablesAgree(if b.active == 0 then buckets - {k} else buckets[k := b], sessions, generation, active)
  {
    hide CountsSessions, SumsByIdentity;
    BucketDrained(buckets, sessions, generation, active, k, b);
    assert buckets[k := b].Keys == buckets.Keys && (buckets - {k}).Keys == buckets.Keys - {k};
  }

  function Reported(items: seq<Item>): int {
    if items == [] then 0 else Reported(items[..|items| - 1]) + items[|items| - 1].connections
  }

  function ReportedEnds(items: seq<Item>): int {
    if items == [] then 0 else ReportedEnds(items[..|items| - 1]) + items[|items| - 1].closed
  }

  /** A bucket with a session start since the last drain, or a live session. */
  predicate Due(b: Bucket) {
    b.connections > 0 || b.active > 0
  }

  /** One item for each due bucket, with what the bucket holds, and no other item. */
  ghost predicate ItemsAreBuckets(items: seq<Item>, buckets: map<Key, Bucket>) {
    && (forall k :: k in buckets && (buckets[k].connections > 0 || buckets[k].active > 0) ==>
          Item(k, buckets[k].connections, buckets[k].closed, buckets[k].peak, buckets[k].active) in items)
    && (forall i :: 0 <= i < |items| ==>
          var k := items[i].key;
          && k in buckets && (buckets[k].connections > 0 || buckets[k].active > 0)
          && items[i] == Item(k, buckets[k].connections, buckets[k].closed, buckets[k].peak, buckets[k].active))
    && (forall i, j :: 0 <= i < j < |items| ==> items[i].key != items[j].key)
  }

  /** One more bucket is walked. */
  lemma ItemsGrow(items: seq<Item>, buckets: map<Key, Bucket>, rest: set<Key>, k: Key, item: seq<Item>)
    requires ItemsAreBuckets(items, buckets - rest) && k in rest && k in buckets
    requires var b := buckets[k];
             item == if Due(b) then [Item(k, b.connections, b.closed, b.peak, b.active)] else []
    ensures ItemsAreBuckets(items + item, buckets - (rest - {k}))
  {
    var done, more := buckets - rest, buckets - (rest - {k});
    assert more == done[k := buckets[k]];
    forall j | j in more && Due(more[j])
      ensures Item(j, more[j].connections, more[j].closed, more[j].peak, more[j].active) in items + item
    {
      if j != k {
        assert j in done;
      }
    }
  }

  /** The ends that a drain throws away: of buckets that are not due. */
  ghost function LostEnds(buckets: map<Key, Bucket>): map<Key, int> {
    map k | k in buckets :: if Due(buckets[k]) then 0 else buckets[k].closed
  }

  /** A drain in progress: the buckets outside `rest` are reported and dropped or refreshed. */
  ghost predicate Walked(was: map<Key, Bucket>, buckets: map<Key, Bucket>, rest: set<Key>, active: map<Identity, int>,
      items: seq<Item>) {
    && rest <= was.Keys
    && ItemsAreBuckets(items, was - rest)
    && (forall k :: k in buckets <==> k in was && (k in rest || was[k].active != 0))
    && (forall k :: k in rest ==> k in buckets && buckets[k] == was[k])
    && (forall k :: k in buckets && k !in rest ==>
          buckets[k] == Bucket(was[k].active, 0, 0, ActiveAt(active, IdentityOf(k))))
  }

  /** The item a bucket gives. */
  function ItemOf(k: Key, b: Bucket): seq<Item> {
    if Due(b) then [Item(k, b.connections, b.closed, b.peak, b.active)] else []
  }

  /** What becomes of a bucket. */
  function Refreshed(buckets: map<Key, Bucket>, k: Key, active: map<Identity, int>): map<Key, Bucket>
    requires k in buckets
  {
    if buckets[k].active == 0 then buckets - {k}
    else buckets[k := Bucket(buckets[k].active, 0, 0, ActiveAt(active, IdentityOf(k)))]
  }

  lemma WalkStep(was: map<Key, Bucket>, buckets: map<Key, Bucket>, rest: set<Key>, active: map<Identity, int>,
      items: seq<Item>, k: Key)
    requires Walked(was, buckets, rest, active, items) && k in rest
    ensures k in buckets && buckets[k] == was[k]
    ensures Walked(was, Refreshed(buckets, k, active), rest - {k}, active, items + ItemOf(k, was[k]))
  {
    hide IdentityOf, ItemsAreBuckets;
    ItemsGrow(items, was, rest, k, ItemOf(k, was[k]));
  }

  lemma CountsStep(items: seq<Item>, k: Key, b: Bucket)
    ensures Reported(items + ItemOf(k, b)) == Reported(items) + if Due(b) then b.connections else 0
    ensures ReportedEnds(items + ItemOf(k, b)) == ReportedEnds(items) + if Due(b) then b.closed else 0
  {
    if Due(b) {
      assert (items + ItemOf(k, b))[..|items|] == items;
    } else {
      assert items + ItemOf(k, b) == items;
    }
  }

  lemma WalkBegins(was: map<Key, Bucket>, active: map<Identity, int>)
    ensures Walked(was, was, was.Keys, active, []) && Sum(LostEnds(was - was.Keys)) == 0
  {
    assert was - was.Keys == map[];
    EmptySum(LostEnds(map[]));
  }

  lemma WalkEnds(was: map<Key, Bucket>, buckets: map<Key, Bucket>, sessions: map<nat, Session>, generation: nat,
      active: map<Identity, int>, items: seq<Item>)
    requires Walked(was, buckets, {}, active, items) && TablesAgree(buckets, sessions, generation, active)
    ensures Starts(buckets) == 0 && Ends(buckets) == 0 && PeaksAreTrue(buckets, active, active)
    ensures ItemsAreBuckets(items, was) && was - {} == was
    ensures forall k :: k in buckets <==> k in was && was[k].active != 0
    ensures forall k :: k in buckets ==> buckets[k] == Bucket(was[k].active, 0, 0, ActiveAt(active, IdentityOf(k)))
  {
    hide IdentityOf, ItemsAreBuckets, PeaksAreTrue, Starts, Ends;
    assert was - {} == was;
    DrainedStartsAreZero(buckets);
    DrainedEndsAreZero(buckets);
    DrainedPeaks(buckets, active);
  }

  lemma LossGrows(was: map<Key, Bucket>, rest: set<Key>, k: Key)
    requires k in rest && k in was
    ensures Sum(LostEnds(was - (rest - {k}))) ==
            Sum(LostEnds(was - rest)) + if Due(was[k]) then 0 else was[k].closed
  {
    hide Sum;
    var lost := if Due(was[k]) then 0 else was[k].closed;
    SumUpdate(LostEnds(was - rest), k, lost);
    assert LostEnds(was - (rest - {k})) == LostEnds(was - rest)[k := lost];
  }

  lemma LossOfOne(k: Key, b: Bucket)
    ensures Sum(LostEnds(map[k := b])) == if Due(b) then 0 else b.closed
  {
    LossGrows(map[k := b], {k}, k);
    assert map[k := b] - {k} == map[] && map[k := b] - ({k} - {k}) == map[k := b];
    EmptySum(LostEnds(map[]));
  }

  /**
   Exactly when a drain loses no end: every bucket that counted one had a start
   since the last drain or still has a session.
   */
  lemma {:induction false} NoEndIsLostIff(buckets: map<Key, Bucket>)
    ensures Sum(LostEnds(buckets)) >= 0
    ensures Sum(LostEnds(buckets)) == 0 <==>
            forall k :: k in buckets && buckets[k].closed > 0 ==> buckets[k].connections > 0 || buckets[k].active > 0
    decreases |buckets|
  {
    hide Sum;
    if buckets == map[] {
      EmptySum(LostEnds(buckets));
    } else {
      var k := AnyKey(buckets);
      NoEndIsLostIff(buckets - {k});
      SumWithout(LostEnds(buckets), k);
      assert LostEnds(buckets) - {k} == LostEnds(buckets - {k});
      assert buckets == (buckets - {k})[k := buckets[k]];
    }
  }

  /** Empty tables, with sessions of earlier generations only. */
  lemma EmptyTables(sessions: map<nat, Session>, generation: nat)
    requires forall h :: h in sessions && sessions[h].open ==> sessions[h].key.generation < generation
    ensures TablesAgree(map[], sessions, generation, map[]) && Starts(map[]) == 0 && Ends(map[]) == 0
    ensures PeaksAreTrue(map[], map[], map[])
  {
    var buckets: map<Key, Bucket> := map[];
    forall id ensures ActiveOf(buckets, id) == 0 {
      EmptySum(Shares(buckets, id));
    }
    EmptySum(Connections(buckets));
    EmptySum(Closings(buckets));
  }

  /** A new generation begins with empty tables; the sessions that are open are all of earlier ones. */
  lemma NextTables(buckets: map<Key, Bucket>, sessions: map<nat, Session>, generation: nat, active: map<Identity, int>)
    requires TablesAgree(buckets, sessions, generation, active)
    ensures TablesAgree(map[], sessions, generation + 1, map[]) && Starts(map[]) == 0 && Ends(map[]) == 0
    ensures PeaksAreTrue(map[], map[], map[])
  {
    EmptyTables(sessions, generation + 1);
  }

  class Accumulator {
    var enabled: bool
    var generation: nat
    var buckets: map<Key, Bucket>
    var activeByIdentity: map<Identity, int>
    var dropped: nat
    var policy: Option<CollectionPolicy>
    var sessions: map<nat, Session>
    ghost var admitted: int   // sessions given a bucket in this generation
    ghost var reported: int   // starts already drained in this generation
    ghost var ended: int      // ends counted on a bucket in this generation
    ghost var endsReported: int   // of these, the ones already drained
    ghost var endsLost: int   // and the ones a drain threw away
    ghost var peaks: map<Identity, int>   // the most sessions at once since the last drain

    /** The counts, which hold also in the middle of a drain. */
    ghost predicate Counted()
      reads this
    {
      && TablesAgree(buckets, sessions, generation, activeByIdentity)
      && reported + Starts(buckets) == admitted
      && endsReported + endsLost + Ends(buckets) == ended
    }

    ghost predicate Valid()
      reads this
    {
      Counted() && PeaksAreTrue(buckets, activeByIdentity, peaks)
    }

    constructor (enabled: bool)
      ensures Valid() && this.enabled == enabled && buckets == map[] && sessions == map[] && generation == 0
      ensures ended == 0 && endsReported == 0 && endsLost == 0
    {
      this.enabled, generation, dropped, policy := enabled, 0, 0, None;
      buckets, activeByIdentity, sessions := map[], map[], map[];
      admitted, reported, peaks := 0, 0, map[];
      ended, endsReported, endsLost := 0, 0, 0;
      EmptyTables(map[], 0);
    }

    /** A new generation begins with empty tables; older sessions keep keys that no longer exist. */
    method NextGeneration()
      requires Valid()
      modifies this
      ensures Valid() && generation == old(generation) + 1 && buckets == map[] && activeByIdentity == map[]
      ensures sessions == old(sessions) && enabled == old(enabled) && policy == old(policy)
      ensures admitted == 0 && reported == 0 && ended == 0 && endsReported == 0 && endsLost == 0
    {
      hide TablesAgree, Starts, Ends, PeaksAreTrue;
      NextTables(buckets, sessions, generation, activeByIdentity);
      buckets, activeByIdentity, generation := map[], map[], generation + 1;
      admitted, reported, peaks := 0, 0, map[];
      ended, endsReported, endsLost := 0, 0, 0;
    }

    method SetEnabled(on: bool)
      requires Valid()
      modifies this
      ensures Valid() && enabled == on && sessions == old(sessions)
      ensures on ==> buckets == old(buckets) && generation == old(generation)
      ensures !on ==> buckets == map[] && generation == old(generation) + 1
    {
      var was := enabled;
      enabled := on;
      if on {
        if !was {
          dropped := 0;
        }
        return;
      }
      NextGeneration();
      dropped := 0;
    }

    method SetCollectionPolicy(p: CollectionPolicy, valid: bool)
      requires Valid()
      modifies this
      ensures Valid() && sessions == old(sessions)
      ensures if !valid || (old(policy).Some? && (p.revision < old(policy).value.revision || old(policy).value == p))
              then generation == old(generation) && buckets == old(buckets) && policy == old(policy)
              else generation == old(generation) + 1 && buckets == map[] && policy == Some(p)
    {
      if !valid {
        return;
      }
      if policy.Some? && (p.revision < policy.value.revision || policy.value == p) {
        return;
      }
      policy := Some(p);
      NextGeneration();
    }

    /** Admits a session under the present generation, or counts it as dropped. */
    method StartSession(allowed: bool, inbound: int, user: int, path: int, device: string, source: string,
        network: string, h: nat) returns (ok: bool)
      requires Valid() && h !in sessions
      modifies this
      ensures Valid() && generation == old(generation) && enabled == old(enabled)
      ensures ended == old(ended) && endsReported == old(endsReported) && endsLost == old(endsLost)
      ensures ok <==> && old(enabled) && user > 0 && allowed
                      && (Key(generation, user, inbound, path, device, source, network) in old(buckets)
                          || |old(buckets)| < 2048)
      ensures !ok ==> sessions == old(sessions) && buckets == old(buckets) && admitted == old(admitted)
      ensures ok ==> var key := Key(generation, user, inbound, path, device, source, network);
                     && sessions == old(sessions)[h := Session(key, true)] && admitted == old(admitted) + 1
                     && var total := ActiveAt(activeByIdentity, IdentityOf(key));
                        && total == ActiveAt(old(activeByIdentity), IdentityOf(key)) + 1
                        && peaks == old(peaks)[IdentityOf(key) := Larger(total, ActiveAt(old(peaks), IdentityOf(key)))]
                        && var b := if key in old(buckets) then old(buckets)[key] else Bucket(0, 0, 0, 0);
                           buckets == old(buckets)[key := Bucket(b.active + 1, b.connections + 1, b.closed,
                                                                 Larger(total, b.peak))]
      ensures !ok ==> peaks == old(peaks)
      ensures dropped == old(dropped) + if !ok && old(enabled) && user > 0 && allowed then 1 else 0
    {
      hide IdentityOf, Starts, Ends, TablesAgree, PeaksAreTrue;
      if !enabled || user <= 0 || !allowed {
        return false;
      }
      var key := Key(generation, user, inbound, path, device, source, network);
      if key !in buckets && |buckets| >= MAX_BUCKETS {
        dropped := dropped + 1;
        return false;
      }
      Open(key, h);
      return true;
    }

    /** The part of StartSession that gives the session its bucket. */
    method Open(key: Key, h: nat)
      requires Valid() && h !in sessions && key.generation == generation
      requires key in buckets || |buckets| < MAX_BUCKETS
      modifies this
      ensures Valid() && generation == old(generation) && enabled == old(enabled) && dropped == old(dropped)
      ensures ended == old(ended) && endsReported == old(endsReported) && endsLost == old(endsLost)
      ensures sessions == old(sessions)[h := Session(key, true)] && admitted == old(admitted) + 1
      ensures var id := IdentityOf(key);
              var total := ActiveAt(old(activeByIdentity), id) + 1;
              && ActiveAt(activeByIdentity, id) == total
              && peaks == old(peaks)[id := Larger(total, ActiveAt(old(peaks), id))]
              && buckets == old(buckets)[key := Opened(old(buckets), key, total)]
    {
      hide IdentityOf, Starts, Ends, TablesAgree, PeaksAreTrue;
      var b := if key in buckets then buckets[key] else Bucket(0, 0, 0, 0);
      var id := IdentityOf(key);
      var active := ActiveAt(activeByIdentity, id) + 1;
      b := Bucket(b.active + 1, b.connections + 1, b.closed, if active > b.peak then active else b.peak);
      assert b == Opened(buckets, key, active);
      hide Opened, Larger, ActiveAt;
      StartKeepsTables(buckets, sessions, generation, activeByIdentity, key, h);
      StartKeepsPeaks(buckets, activeByIdentity, peaks, key, b, active);
      StartsMove(buckets, key, b);
      EndsMove(buckets, key, b);
      peaks := peaks[id := Larger(active, ActiveAt(peaks, id))];
      activeByIdentity := activeByIdentity[id := active];
      buckets := buckets[key := b];
      sessions := sessions[h := Session(key, true)];
      admitted := admitted + 1;
    }

    /** Finishing counts once, and only against a bucket of the session's own generation. */
    method Finish(h: nat)
      requires Valid()
      modifies this
      ensures Valid() && generation == old(generation) && admitted == old(admitted) && reported == old(reported)
      ensures enabled == old(enabled) && endsReported == old(endsReported) && endsLost == old(endsLost)
      ensures sessions == if h in old(sessions) && old(sessions)[h].open
                          then old(sessions)[h := Session(old(sessions)[h].key, false)] else old(sessions)
      ensures h in old(sessions) && old(sessions)[h].key.generation != generation ==>
                buckets == old(buckets) && activeByIdentity == old(activeByIdentity)
      ensures if h in old(sessions) && old(sessions)[h].open && old(sessions)[h].key in old(buckets) then
                var key, b := old(sessions)[h].key, old(buckets)[old(sessions)[h].key];
                && buckets == old(buckets)[key := b.(active := b.active - 1, closed := b.closed + 1)]
                && ended == old(ended) + 1
              else buckets == old(buckets) && ended == old(ended)
      ensures peaks == old(peaks)
    {
      hide IdentityOf, Starts, Ends, TablesAgree, PeaksAreTrue;
      if h !in sessions || !sessions[h].open {
        return;
      }
      var key := sessions[h].key;
      End(key, h);
    }

    method End(key: Key, h: nat)
      requires Valid() && h in sessions && sessions[h] == Session(key, true)
      modifies this
      ensures Valid() && generation == old(generation) && admitted == old(admitted) && reported == old(reported)
      ensures enabled == old(enabled) && endsReported == old(endsReported) && endsLost == old(endsLost)
      ensures sessions == old(sessions)[h := Session(key, false)]
      ensures key.generation != generation ==> buckets == old(buckets) && activeByIdentity == old(activeByIdentity)
      ensures if key in old(buckets) then
                var b := old(buckets)[key];
                && ActiveAt(activeByIdentity, IdentityOf(key)) == ActiveAt(old(activeByIdentity), IdentityOf(key)) - 1
                && buckets == old(buckets)[key := b.(active := b.active - 1, closed := b.closed + 1)]
                && ended == old(ended) + 1
              else buckets == old(buckets) && ended == old(ended)
      ensures peaks == old(peaks)
    {
      hide IdentityOf, Starts, Ends, TablesAgree, PeaksAreTrue, Without;
      EndKeepsTables(buckets, sessions, generation, activeByIdentity, key, h);
      if key in buckets {
        var b, id := buckets[key], IdentityOf(key);
        var closing := b.(active := b.active - 1, closed := b.closed + 1);
        var active' := Without(activeByIdentity, id);
        EndKeepsPeaks(buckets, activeByIdentity, peaks, key, closing, active');
        StartsMove(buckets, key, closing);
        EndsMove(buckets, key, closing);
        buckets, activeByIdentity, ended := buckets[key := closing], active', ended + 1;
      }
      sessions := sessions[h := Session(key, false)];
    }

    /**
     Draining reports every start exactly once, keeps the bucket of every live
     session and drops the rest. There is one item for each bucket that had a
     start or still has a session. The ends counted on any other bucket go
     unreported.
     */
    method Drain() returns (items: seq<Item>)
      requires Valid()
      modifies this
      ensures Valid() && sessions == old(sessions) && generation == old(generation) && admitted == old(admitted)
      ensures enabled == old(enabled) && activeByIdentity == old(activeByIdentity) && ended == old(ended)
      ensures !enabled ==> items == [] && buckets == old(buckets) && peaks == old(peaks)
      ensures enabled ==> reported == old(reported) + Reported(items) && reported == admitted
      ensures enabled ==> ItemsAreBuckets(items, old(buckets))
      ensures enabled ==> forall k :: k in buckets <==> k in old(buckets) && old(buckets)[k].active != 0
      ensures enabled ==> forall k :: k in buckets ==>
                buckets[k] == Bucket(old(buckets)[k].active, 0, 0, ActiveAt(activeByIdentity, IdentityOf(k)))
      ensures enabled ==> peaks == activeByIdentity
      ensures enabled ==> endsReported == old(endsReported) + ReportedEnds(items)
                          && endsLost == old(endsLost) + Sum(LostEnds(old(buckets)))
                          && endsReported + endsLost == ended
    {
      hide Starts, Ends, TablesAgree, PeaksAreTrue, IdentityOf, ItemsAreBuckets, LostEnds, Sum, Walked, Refreshed,
        ItemOf, Reported, ReportedEnds;
      items := [];
      if !enabled {
        return;
      }
      var rest := buckets.Keys;
      ghost var was := buckets;
      WalkBegins(was, activeByIdentity);
      CountsOfNone();
      while rest != {}
        invariant Counted() && sessions == old(sessions) && generation == old(generation) && admitted == old(admitted)
        invariant enabled && activeByIdentity == old(activeByIdentity) && ended == old(ended)
        invariant Walked(was, buckets, rest, activeByIdentity, items)
        invariant reported == old(reported) + Reported(items)
        invariant endsReported == old(endsReported) + ReportedEnds(items)
        invariant endsLost == old(endsLost) + Sum(LostEnds(was - rest))
      {
        var k :| k in rest;
        WalkStep(was, buckets, rest, activeByIdentity, items, k);
        CountsStep(items, k, was[k]);
        LossGrows(was, rest, k);
        var item := DrainBucket(k);
        rest, items := rest - {k}, items + item;
      }
      WalkEnds(was, buckets, sessions, generation, activeByIdentity, items);
      peaks, dropped := activeByIdentity, 0;
    }

    static lemma CountsOfNone()
      ensures Reported([]) == 0 && ReportedEnds([]) == 0
    {
    }

    method DrainBucket(k: Key) returns (item: seq<Item>)
      requires Counted() && k in buckets
      modifies this
      ensures Counted() && sessions == old(sessions) && generation == old(generation) && admitted == old(admitted)
      ensures enabled == old(enabled) && ended == old(ended)
      ensures activeByIdentity == old(activeByIdentity)
      ensures reported == old(reported) + old(buckets)[k].connections
      ensures endsReported == old(endsReported) + if Due(old(buckets)[k]) then old(buckets)[k].closed else 0
      ensures endsLost == old(endsLost) + if Due(old(buckets)[k]) then 0 else old(buckets)[k].closed
      ensures item == ItemOf(k, old(buckets)[k]) && buckets == Refreshed(old(buckets), k, activeByIdentity)
    {
      hide Starts, Ends, TablesAgree, IdentityOf;
      var b := buckets[k];
      var refreshed := Bucket(b.active, 0, 0, ActiveAt(activeByIdentity, IdentityOf(k)));
      DrainKeepsTables(buckets, sessions, generation, activeByIdentity, k, refreshed);
      StartsMove(buckets, k, refreshed);
      EndsMove(buckets, k, refreshed);
      item := [];
      if b.connections > 0 || b.active > 0 {
        item := [Item(k, b.connections, b.closed, b.peak, b.active)];
        endsReported := endsReported + b.closed;
      } else {
        endsLost := endsLost + b.closed;
      }
      reported := reported + b.connections;
      buckets := if b.active == 0 then buckets - {k} else buckets[k := refreshed];
    }
  }

  /** A session that outlives a drain and ends before the next one is never reported as closed. */
  method EndAfterDrainIsLost(user: int, source: string) returns (a: Accumulator, items: seq<Item>)
    requires user > 0
    ensures a.Valid() && a.ended == 1 && a.endsReported == 0 && a.endsLost == 1 && items == []
  {
    hide IdentityOf, Starts, Ends, TablesAgree, PeaksAreTrue, Reported, LostEnds, Sum;
    a := new Accumulator(true);
    var ok := a.StartSession(true, 1, user, 0, "", source, "tcp", 0);
    ghost var key := Key(0, user, 1, 0, "", source, "tcp");
    LossOfOne(key, a.buckets[key]);
    assert a.buckets == map[key := a.buckets[key]];
    items := a.Drain();
    a.Finish(0);
    LossOfOne(key, a.buckets[key]);
    assert a.buckets == map[key := a.buckets[key]];
    items := a.Drain();
    assert items == [];
  }
}
