/**
 Traffic accounting of one SSH user (internal/agent/ssh_inbounds.go): a counter
 per inbound, one usage record per billing period shared by all of them, and
 acknowledgements from the Controller in any order.
 */
module SshQuota {
  import opened Sums
  import opened Wrappers

  /** Bytes counted and bytes acknowledged, each way. */
  datatype Totals = Totals(up: int, down: int, ackUp: int, ackDown: int)

  const ZERO := Totals(0, 0, 0, 0)

  datatype Policy = Policy(
    periodKey: string, previousPeriodKey: string, limit: int, baseline: int,
    leaseEnforced: bool, lease: int, exceeded: bool)

  datatype Counter = Counter(epoch: string, policy: Policy, totals: Totals)

  /** One user: counters by inbound, usage by period key. */
  datatype Traffic = Traffic(counters: map<int, Counter>, periods: map<string, Totals>)

  datatype Checkpoint = Checkpoint(periodKey: string, epoch: string, up: int, down: int)

  function PositiveDifference(total: int, acknowledged: int): nat {
    if total <= acknowledged then 0 else total - acknowledged
  }

  function Unacknowledged(t: Totals): nat {
    PositiveDifference(t.up, t.ackUp) + PositiveDifference(t.down, t.ackDown)
  }

  /** A period nobody has used yet reads as zero. */
  function PeriodOf(t: Traffic, key: string): Totals {
    if key in t.periods then t.periods[key] else ZERO
  }

  function Count(x: Totals, upload: bool, bytes: int): Totals {
    if upload then x.(up := x.up + bytes) else x.(down := x.down + bytes)
  }

  function AddTraffic(t: Traffic, inbound: int, upload: bool, bytes: int): Traffic
    requires inbound in t.counters
  {
    if bytes <= 0 then t
    else
      var c := t.counters[inbound];
      var key := c.policy.periodKey;
      Traffic(t.counters[inbound := c.(totals := Count(c.totals, upload, bytes))],
              t.periods[key := Count(PeriodOf(t, key), upload, bytes)])
  }

  /** The acknowledged value a checkpoint leads to: never above the total, never lower than before. */
  function Settle(checkpoint: int, total: int, previous: int): int {
    var capped := if checkpoint < total then checkpoint else total;
    var floored := if capped < 0 then 0 else capped;
    if floored < previous then previous else floored
  }

  predicate Applies(c: Counter, checkpoint: Checkpoint) {
    && checkpoint.periodKey != "" && c.policy.periodKey == checkpoint.periodKey
    && (checkpoint.epoch == "" || checkpoint.epoch == c.epoch)
  }

  function Acknowledge(t: Traffic, inbound: int, checkpoint: Checkpoint): Traffic
    requires inbound in t.counters
  {
    var c := t.counters[inbound];
    if !Applies(c, checkpoint) then t
    else
      var x := c.totals;
      var up, down := Settle(checkpoint.up, x.up, x.ackUp), Settle(checkpoint.down, x.down, x.ackDown);
      var p := PeriodOf(t, checkpoint.periodKey);
      var p' := p.(ackUp := p.ackUp + up - x.ackUp, ackDown := p.ackDown + down - x.ackDown);
      Traffic(t.counters[inbound := c.(totals := x.(ackUp := up, ackDown := down))],
              t.periods[checkpoint.periodKey := p'])
  }

  /** What a counter has before its first policy: no period, no limit. */
  const NO_POLICY := Policy("", "", 0, 0, false, 0, false)

  function Joined(t: Traffic, inbound: int, epoch: string): Traffic {
    t.(counters := t.counters[inbound := Counter(epoch, NO_POLICY, ZERO)])
  }

  /** A policy resets counters of period `key` unless it is their first or continues that period. */
  predicate Renews(key: string, policy: Policy) {
    && key != "" && policy.periodKey != "" && key != policy.periodKey
    && (policy.previousPeriodKey == "" || policy.previousPeriodKey != key)
  }

  function SetPolicy(t: Traffic, inbound: int, policy: Policy, newEpoch: string): Traffic
    requires inbound in t.counters
  {
    var c := t.counters[inbound];
    t.(counters := t.counters[inbound :=
         if Renews(c.policy.periodKey, policy) then Counter(newEpoch, policy, ZERO) else c.(policy := policy)])
  }

  function Cap(policy: Policy): int {
    var leaseCap := policy.baseline + if policy.lease < 0 then 0 else policy.lease;
    if policy.leaseEnforced && leaseCap < policy.limit then leaseCap else policy.limit
  }

  function Used(t: Traffic, policy: Policy): int {
    policy.baseline + Unacknowledged(PeriodOf(t, policy.periodKey))
  }

  predicate QuotaExceeded(t: Traffic, inbound: int)
    requires inbound in t.counters
  {
    var policy := t.counters[inbound].policy;
    policy.exceeded || (policy.limit > 0 && Used(t, policy) >= Cap(policy))
  }

  /** Bytes count once on the counter and once on its period, in their own direction, and nowhere else. */
  lemma AddTrafficIsExact(t: Traffic, inbound: int, upload: bool, bytes: int)
    requires inbound in t.counters
    ensures var t', c := AddTraffic(t, inbound, upload, bytes), t.counters[inbound];
            var key, n := c.policy.periodKey, if bytes > 0 then bytes else 0;
            var p, p' := PeriodOf(t, key), PeriodOf(t', key);
            && t'.counters.Keys == t.counters.Keys && (forall i :: i in t.counters && i != inbound ==>
                                                         t'.counters[i] == t.counters[i])
            && t'.counters[inbound].policy == c.policy && t'.counters[inbound].epoch == c.epoch
            && t'.counters[inbound].totals ==
               Totals(c.totals.up + (if upload then n else 0), c.totals.down + (if upload then 0 else n),
                      c.totals.ackUp, c.totals.ackDown)
            && p' == Totals(p.up + (if upload then n else 0), p.down + (if upload then 0 else n), p.ackUp, p.ackDown)
            && forall k :: k != key ==> PeriodOf(t', k) == PeriodOf(t, k)
  {
  }

  /** The acknowledged value is the checkpoint, but not below what it was, below zero, or above what was counted. */
  predicate Reaches(acknowledged: int, checkpoint: int, total: int, previous: int) {
    && acknowledged >= previous
    && (acknowledged <= previous || acknowledged <= 0 || acknowledged <= checkpoint)
    && (acknowledged <= previous || acknowledged <= 0 || acknowledged <= total)
    && (checkpoint <= total ==> acknowledged >= checkpoint)
    && (total <= checkpoint ==> acknowledged >= total)
    && (previous < 0 ==> acknowledged >= 0)
  }

  /** A checkpoint of the counter's own period and epoch moves the two acknowledged values and the period with them. */
  lemma AcknowledgeIsExact(t: Traffic, inbound: int, checkpoint: Checkpoint)
    requires inbound in t.counters
    ensures var t', c := Acknowledge(t, inbound, checkpoint), t.counters[inbound];
            if checkpoint.periodKey == "" || checkpoint.periodKey != c.policy.periodKey
               || (checkpoint.epoch != "" && checkpoint.epoch != c.epoch) then t' == t
            else
              var x, x', p, p' := c.totals, t'.counters[inbound].totals, PeriodOf(t, c.policy.periodKey),
                                  PeriodOf(t', c.policy.periodKey);
              && t'.counters == t.counters[inbound := c.(totals := x')]
              && x'.up == x.up && x'.down == x.down
              && Reaches(x'.ackUp, checkpoint.up, x.up, x.ackUp)
              && Reaches(x'.ackDown, checkpoint.down, x.down, x.ackDown)
              && p' == Totals(p.up, p.down, p.ackUp + (x'.ackUp - x.ackUp), p.ackDown + (x'.ackDown - x.ackDown))
              && forall k :: k != c.policy.periodKey ==> PeriodOf(t', k) == PeriodOf(t, k)
  {
  }

  /** A policy is installed; the counter starts again only in a new period that does not continue its own. */
  lemma SetPolicyIsExact(t: Traffic, inbound: int, policy: Policy, newEpoch: string)
    requires inbound in t.counters
    ensures var t', c := SetPolicy(t, inbound, policy, newEpoch), t.counters[inbound];
            var own := c.policy.periodKey;
            && t'.periods == t.periods
            && t'.counters == t.counters[inbound :=
                 if own == "" || policy.periodKey == "" || policy.periodKey == own || policy.previousPeriodKey == own
                 then Counter(c.epoch, policy, c.totals)
                 else Counter(newEpoch, policy, Totals(0, 0, 0, 0))]
  {
  }

  /**
   A transfer is refused if the Controller said so; otherwise only under a limit,
   once the usage known to the Controller and what it has not acknowledged reach
   the limit, or under an enforced lease the baseline and the lease.
   */
  lemma QuotaExceededIff(t: Traffic, inbound: int)
    requires inbound in t.counters
    ensures var policy := t.counters[inbound].policy;
            var p := PeriodOf(t, policy.periodKey);
            var used := policy.baseline + (if p.up > p.ackUp then p.up - p.ackUp else 0)
                        + (if p.down > p.ackDown then p.down - p.ackDown else 0);
            QuotaExceeded(t, inbound) <==>
              policy.exceeded
              || (policy.limit > 0
                  && (used >= policy.limit
                      || (policy.leaseEnforced && used >= policy.baseline + policy.lease && used >= policy.baseline)))
  {
    hide PeriodOf;
  }

  // ---------------------------------------------------------------------------
  // Within one period the shared usage is the sum of the counters
  // ---------------------------------------------------------------------------

  datatype Field = Up | Down | AckUp | AckDown

  function Get(x: Totals, f: Field): int {
    match f
    case Up => x.up
    case Down => x.down
    case AckUp => x.ackUp
    case AckDown => x.ackDown
  }

  ghost function Column(counters: map<int, Counter>, f: Field): map<int, int> {
    map i | i in counters :: Get(counters[i].totals, f)
  }

  ghost function Total(counters: map<int, Counter>, f: Field): int {
    Sum(Column(counters, f))
  }

  predicate Sane(x: Totals) {
    0 <= x.ackUp <= x.up && 0 <= x.ackDown <= x.down
  }

  ghost predicate Consistent(t: Traffic, key: string) {
    && (forall i :: i in t.counters ==> t.counters[i].policy.periodKey == key && Sane(t.counters[i].totals))
    && (forall f :: Get(PeriodOf(t, key), f) == Total(t.counters, f))
  }

  /** Replacing one counter moves a column's sum by the difference. */
  lemma TotalMoves(counters: map<int, Counter>, inbound: int, c: Counter, f: Field)
    ensures Total(counters[inbound := c], f) ==
            Total(counters, f) + Get(c.totals, f)
            - (if inbound in counters then Get(counters[inbound].totals, f) else 0)
  {
    SumUpdate(Column(counters, f), inbound, Get(c.totals, f));
    assert Column(counters[inbound := c], f) == Column(counters, f)[inbound := Get(c.totals, f)];
  }

  lemma ZeroCounterKeepsSums(t: Traffic, key: string, inbound: int, c: Counter)
    requires Consistent(t, key) && inbound !in t.counters && c.policy.periodKey == key && c.totals == ZERO
    ensures Consistent(t.(counters := t.counters[inbound := c]), key)
  {
    hide Total;
    var t' := t.(counters := t.counters[inbound := c]);
    forall f ensures Get(PeriodOf(t', key), f) == Total(t'.counters, f) {
      TotalMoves(t.counters, inbound, c, f);
      assert Get(PeriodOf(t, key), f) == Total(t.counters, f);
    }
  }

  lemma AddTrafficKeepsSums(t: Traffic, key: string, inbound: int, upload: bool, bytes: int)
    requires Consistent(t, key) && inbound in t.counters
    ensures Consistent(AddTraffic(t, inbound, upload, bytes), key)
  {
    hide Total;
    if bytes > 0 {
      var c, t' := t.counters[inbound], AddTraffic(t, inbound, upload, bytes);
      forall f ensures Get(PeriodOf(t', key), f) == Total(t'.counters, f) {
        TotalMoves(t.counters, inbound, t'.counters[inbound], f);
        assert Get(PeriodOf(t, key), f) == Total(t.counters, f);
      }
    }
  }

  /** Any checkpoint, in any order, repeated or stale, keeps the books and never takes back an acknowledgement. */
  lemma AcknowledgeKeepsSums(t: Traffic, key: string, inbound: int, checkpoint: Checkpoint)
    requires Consistent(t, key) && inbound in t.counters
    ensures var t' := Acknowledge(t, inbound, checkpoint);
            && Consistent(t', key)
            && (!Applies(t.counters[inbound], checkpoint) ==> t' == t)
            && forall i :: i in t.counters ==>
                 && t.counters[i].totals.ackUp <= t'.counters[i].totals.ackUp
                 && t.counters[i].totals.ackDown <= t'.counters[i].totals.ackDown
                 && t'.counters[i].totals.up == t.counters[i].totals.up
                 && t'.counters[i].totals.down == t.counters[i].totals.down
  {
    hide Total;
    if Applies(t.counters[inbound], checkpoint) {
      var t' := Acknowledge(t, inbound, checkpoint);
      forall f ensures Get(PeriodOf(t', key), f) == Total(t'.counters, f) {
        TotalMoves(t.counters, inbound, t'.counters[inbound], f);
        assert Get(PeriodOf(t, key), f) == Total(t.counters, f);
      }
    }
  }

  /** What the period has outstanding falls by exactly what the counter had acknowledged. */
  lemma AcknowledgeLowersUsage(t: Traffic, key: string, inbound: int, checkpoint: Checkpoint)
    requires Consistent(t, key) && inbound in t.counters
    ensures var t' := Acknowledge(t, inbound, checkpoint);
            var x, x' := t.counters[inbound].totals, t'.counters[inbound].totals;
            Unacknowledged(PeriodOf(t', key)) ==
            Unacknowledged(PeriodOf(t, key)) - (x'.ackUp - x.ackUp) - (x'.ackDown - x.ackDown)
  {
    hide Total, Unacknowledged, Settle;
    var t' := Acknowledge(t, inbound, checkpoint);
    AcknowledgeKeepsSums(t, key, inbound, checkpoint);
    PeriodIsSane(t, key);
    PeriodIsSane(t', key);
    SaneOutstanding(PeriodOf(t, key));
    SaneOutstanding(PeriodOf(t', key));
  }

  /** A checkpoint taken from the counter itself acknowledges everything counted so far. */
  lemma FullCheckpointSettles(t: Traffic, key: string, inbound: int)
    requires Consistent(t, key) && inbound in t.counters && key != ""
    ensures var c := t.counters[inbound];
            var t' := Acknowledge(t, inbound, Checkpoint(key, c.epoch, c.totals.up, c.totals.down));
            && Unacknowledged(t'.counters[inbound].totals) == 0
            && Unacknowledged(PeriodOf(t', key)) == Unacknowledged(PeriodOf(t, key)) - Unacknowledged(c.totals)
  {
    hide Total, Unacknowledged;
    var c := t.counters[inbound];
    var checkpoint := Checkpoint(key, c.epoch, c.totals.up, c.totals.down);
    var t' := Acknowledge(t, inbound, checkpoint);
    AcknowledgeKeepsSums(t, key, inbound, checkpoint);
    PeriodIsSane(t, key);
    PeriodIsSane(t', key);
    SaneOutstanding(c.totals);
    SaneOutstanding(t'.counters[inbound].totals);
    SaneOutstanding(PeriodOf(t, key));
    SaneOutstanding(PeriodOf(t', key));
  }

  lemma SaneOutstanding(x: Totals)
    requires Sane(x)
    ensures Unacknowledged(x) == x.up - x.ackUp + x.down - x.ackDown
  {
  }

  /** What each inbound has counted and not yet had acknowledged. */
  ghost function Outstanding(counters: map<int, Counter>): map<int, int> {
    map i | i in counters :: Unacknowledged(counters[i].totals) as int
  }

  lemma {:induction false} ColumnsAgree(counters: map<int, Counter>)
    requires forall i :: i in counters ==> Sane(counters[i].totals)
    ensures 0 <= Total(counters, AckUp) <= Total(counters, Up)
    ensures 0 <= Total(counters, AckDown) <= Total(counters, Down)
    ensures Sum(Outstanding(counters)) ==
            Total(counters, Up) - Total(counters, AckUp) + Total(counters, Down) - Total(counters, AckDown)
    decreases |counters|
  {
    hide Sum;
    if counters == map[] {
      forall f ensures Total(counters, f) == 0 { EmptySum(Column(counters, f)); }
      EmptySum(Outstanding(counters));
    } else {
      var k := AnyKey(counters);
      var rest := counters - {k};
      ColumnsAgree(rest);
      forall f ensures Total(counters, f) == Get(counters[k].totals, f) + Total(rest, f) {
        SumWithout(Column(counters, f), k);
        assert Column(counters, f) - {k} == Column(rest, f);
      }
      SumWithout(Outstanding(counters), k);
      assert Outstanding(counters) - {k} == Outstanding(rest);
    }
  }

  lemma PeriodFields(t: Traffic, key: string)
    requires Consistent(t, key)
    ensures PeriodOf(t, key) ==
            Totals(Total(t.counters, Up), Total(t.counters, Down), Total(t.counters, AckUp), Total(t.counters, AckDown))
  {
    hide Total;
    var p := PeriodOf(t, key);
    assert p.up == Get(p, Up) && p.down == Get(p, Down) && p.ackUp == Get(p, AckUp) && p.ackDown == Get(p, AckDown);
  }

  lemma PeriodIsSane(t: Traffic, key: string)
    requires Consistent(t, key)
    ensures Sane(PeriodOf(t, key))
  {
    PeriodFields(t, key);
    ColumnsAgree(t.counters);
  }

  /** The shared unacknowledged usage is the sum of what each inbound has outstanding. */
  lemma SharedUsageIsSumOfOutstanding(t: Traffic, key: string)
    requires Consistent(t, key)
    ensures Unacknowledged(PeriodOf(t, key)) == Sum(Outstanding(t.counters))
  {
    hide Total, Outstanding, Sum, PeriodOf;
    PeriodFields(t, key);
    ColumnsAgree(t.counters);
  }

  // ---------------------------------------------------------------------------
  // A new period
  // ---------------------------------------------------------------------------

  /** A policy reaches every inbound of the user. */
  function Roll(t: Traffic, policy: Policy, epochs: map<int, string>): Traffic
    requires t.counters.Keys <= epochs.Keys
  {
    t.(counters := map i | i in t.counters :: SetPolicy(t, i, policy, epochs[i]).counters[i])
  }

  lemma {:induction false} ResetCountersAreZero(counters: map<int, Counter>, f: Field)
    requires forall i :: i in counters ==> counters[i].totals == ZERO
    ensures Total(counters, f) == 0
    decreases |counters|
  {
    if counters == map[] {
      assert Column(counters, f) == map[];
    } else {
      var k := AnyKey(counters);
      ResetCountersAreZero(counters - {k}, f);
      SumWithout(Column(counters, f), k);
      assert Column(counters, f) - {k} == Column(counters - {k}, f);
    }
  }

  lemma RolledTotals(t: Traffic, key: string, policy: Policy, epochs: map<int, string>, f: Field)
    requires Consistent(t, key) && t.counters.Keys <= epochs.Keys
    ensures Total(Roll(t, policy, epochs).counters, f) == if Renews(key, policy) then 0 else Total(t.counters, f)
  {
    var t' := Roll(t, policy, epochs);
    if Renews(key, policy) {
      ResetCountersAreZero(t'.counters, f);
    } else {
      assert Column(t'.counters, f) == Column(t.counters, f);
    }
  }

  /**
   Exactly when the books balance under a policy, the first one included: the
   usage already recorded for its period is what the counters go on with. For a
   period nobody has used that means the counters were reset or empty; a first
   policy and one that continues the old period keep counters that the new
   period's usage has never seen.
   */
  lemma RollKeepsSumsIff(t: Traffic, key: string, policy: Policy, epochs: map<int, string>)
    requires Consistent(t, key) && t.counters.Keys <= epochs.Keys
    ensures Consistent(Roll(t, policy, epochs), policy.periodKey) <==>
            PeriodOf(t, policy.periodKey) == if Renews(key, policy) then ZERO else PeriodOf(t, key)
    ensures policy.periodKey !in t.periods ==>
              (Consistent(Roll(t, policy, epochs), policy.periodKey) <==>
               Renews(key, policy) || forall f :: Total(t.counters, f) == 0)
  {
    hide Total;
    var t', p := Roll(t, policy, epochs), PeriodOf(t, policy.periodKey);
    var kept := if Renews(key, policy) then ZERO else PeriodOf(t, key);
    forall f ensures Total(t'.counters, f) == Get(kept, f) {
      RolledTotals(t, key, policy, epochs, f);
      assert Get(PeriodOf(t, key), f) == Total(t.counters, f);
    }
    assert PeriodOf(t', policy.periodKey) == p;
    SameFields(p, kept);
    SameFields(PeriodOf(t, key), ZERO);
  }

  lemma SameFields(x: Totals, y: Totals)
    ensures x == y <==> forall f :: Get(x, f) == Get(y, f)
  {
    if forall f :: Get(x, f) == Get(y, f) {
      assert Get(x, Up) == Get(y, Up) && Get(x, Down) == Get(y, Down);
      assert Get(x, AckUp) == Get(y, AckUp) && Get(x, AckDown) == Get(y, AckDown);
    }
  }

  /** Bytes counted before the first policy are outstanding on the counter and missing from the period. */
  lemma FirstPolicyLosesUsage(bytes: int, policy: Policy)
    requires bytes > 0 && policy.periodKey != ""
    ensures var t := SetPolicy(AddTraffic(Joined(Traffic(map[], map[]), 1, "a"), 1, true, bytes), 1, policy, "b");
            Unacknowledged(t.counters[1].totals) == bytes && Unacknowledged(PeriodOf(t, policy.periodKey)) == 0
            && !Consistent(t, policy.periodKey)
  {
    var t := SetPolicy(AddTraffic(Joined(Traffic(map[], map[]), 1, "a"), 1, true, bytes), 1, policy, "b");
    OnlyCounter(t, 1, Up);
    assert Get(PeriodOf(t, policy.periodKey), Up) != Total(t.counters, Up);
  }

  /** So are bytes of the old period when the new one continues it. */
  lemma ContinuedPeriodLosesUsage(bytes: int, first: Policy, second: Policy)
    requires bytes > 0 && first.periodKey != "" && second.periodKey != first.periodKey
    requires second.previousPeriodKey == first.periodKey
    ensures var start := SetPolicy(Joined(Traffic(map[], map[]), 1, "a"), 1, first, "b");
            var t := SetPolicy(AddTraffic(start, 1, true, bytes), 1, second, "c");
            Unacknowledged(t.counters[1].totals) == bytes && Unacknowledged(PeriodOf(t, second.periodKey)) == 0
            && !Consistent(t, second.periodKey)
  {
    var start := SetPolicy(Joined(Traffic(map[], map[]), 1, "a"), 1, first, "b");
    var t := SetPolicy(AddTraffic(start, 1, true, bytes), 1, second, "c");
    OnlyCounter(t, 1, Up);
    assert Get(PeriodOf(t, second.periodKey), Up) != Total(t.counters, Up);
  }

  /** The counter after it counted under one policy, moved to a second and came back. */
  function Returned(bytes: int, first: Policy, second: Policy): Traffic {
    var start := SetPolicy(Joined(Traffic(map[], map[]), 1, "a"), 1, first, "b");
    SetPolicy(SetPolicy(AddTraffic(start, 1, true, bytes), 1, second, "c"), 1, first, "d")
  }

  /** A return to an earlier period: the counter starts again at zero and meets that period's old usage. */
  lemma ReturnedPeriodKeepsOldUsage(bytes: int, first: Policy, second: Policy)
    requires bytes > 0 && first.periodKey != "" && Renews(first.periodKey, second) && Renews(second.periodKey, first)
    ensures var t := Returned(bytes, first, second);
            && t == Traffic(map[1 := Counter("d", first, ZERO)], map[first.periodKey := Totals(bytes, 0, 0, 0)])
            && !Consistent(t, first.periodKey)
  {
    hide Total, Consistent;
    var counter := Counter("a", first, ZERO);
    assert SetPolicy(Joined(Traffic(map[], map[]), 1, "a"), 1, first, "b") == Traffic(map[1 := counter], map[]);
    var t := Returned(bytes, first, second);
    assert t == Traffic(map[1 := Counter("d", first, ZERO)], map[first.periodKey := Totals(bytes, 0, 0, 0)]);
    ZeroCounterDiffers(t, first.periodKey);
  }

  lemma ZeroCounterDiffers(t: Traffic, key: string)
    requires t.counters.Keys == {1} && t.counters[1].totals == ZERO && PeriodOf(t, key).up > 0
    ensures !Consistent(t, key)
  {
    OnlyCounter(t, 1, Up);
    assert Get(PeriodOf(t, key), Up) != Total(t.counters, Up);
  }

  lemma OnlyCounter(t: Traffic, inbound: int, f: Field)
    requires t.counters.Keys == {inbound}
    ensures Total(t.counters, f) == Get(t.counters[inbound].totals, f)
  {
    SumWithout(Column(t.counters, f), inbound);
    EmptySum(Column(t.counters, f) - {inbound});
  }

  // ---------------------------------------------------------------------------
  // The books over every history
  // ---------------------------------------------------------------------------

  /** What is not in its counter's present period, and what is in a period whose counter has moved on. */
  datatype History = History(carried: map<int, Totals>, left: map<string, Totals>)

  function LeftIn(h: History, key: string): Totals {
    if key in h.left then h.left[key] else ZERO
  }

  function Plus(x: Totals, y: Totals): Totals {
    Totals(x.up + y.up, x.down + y.down, x.ackUp + y.ackUp, x.ackDown + y.ackDown)
  }

  function Minus(x: Totals, y: Totals): Totals {
    Totals(x.up - y.up, x.down - y.down, x.ackUp - y.ackUp, x.ackDown - y.ackDown)
  }

  /** What each counter has put into period `key` while it was on it. */
  ghost function Shares(counters: map<int, Counter>, h: History, key: string, f: Field): map<int, int>
    requires h.carried.Keys == counters.Keys
  {
    map i | i in counters :: Share(counters[i], h.carried[i], key, f)
  }

  function Share(c: Counter, carried: Totals, key: string, f: Field): int {
    if c.policy.periodKey == key then Get(Minus(c.totals, carried), f) else 0
  }

  /** Every period is the sum of what its counters put into it, those that left included. */
  ghost predicate Books(t: Traffic, h: History) {
    && h.carried.Keys == t.counters.Keys && (forall i :: i in t.counters ==> Sane(t.counters[i].totals))
    && forall key, f :: Get(PeriodOf(t, key), f) == Get(LeftIn(h, key), f) + Sum(Shares(t.counters, h, key, f))
  }

  lemma SharesMove(counters: map<int, Counter>, h: History, inbound: int, c: Counter, carried: Totals, key: string,
      f: Field)
    requires h.carried.Keys == counters.Keys
    ensures Sum(Shares(counters[inbound := c], h.(carried := h.carried[inbound := carried]), key, f)) ==
            Sum(Shares(counters, h, key, f)) + Share(c, carried, key, f)
            - (if inbound in counters then Share(counters[inbound], h.carried[inbound], key, f) else 0)
  {
    var shares, h' := Shares(counters, h, key, f), h.(carried := h.carried[inbound := carried]);
    SumUpdate(shares, inbound, Share(c, carried, key, f));
    assert Shares(counters[inbound := c], h', key, f) == shares[inbound := Share(c, carried, key, f)];
  }

  /** The history after a policy is installed: a change of period settles the old one and carries the counter over. */
  function Moved(t: Traffic, h: History, inbound: int, policy: Policy, newEpoch: string): History
    requires inbound in t.counters && inbound in h.carried
  {
    var c, key := t.counters[inbound], t.counters[inbound].policy.periodKey;
    if policy.periodKey == key then h
    else History(h.carried[inbound := SetPolicy(t, inbound, policy, newEpoch).counters[inbound].totals],
                 h.left[key := Plus(LeftIn(h, key), Minus(c.totals, h.carried[inbound]))])
  }

  lemma JoinKeepsBooks(t: Traffic, h: History, inbound: int, epoch: string)
    requires Books(t, h) && inbound !in t.counters
    ensures Books(Joined(t, inbound, epoch), h.(carried := h.carried[inbound := ZERO]))
  {
    hide Sum, Shares;
    var t', h' := Joined(t, inbound, epoch), h.(carried := h.carried[inbound := ZERO]);
    forall key, f ensures Get(PeriodOf(t', key), f) == Get(LeftIn(h', key), f) + Sum(Shares(t'.counters, h', key, f)) {
      SharesMove(t.counters, h, inbound, t'.counters[inbound], ZERO, key, f);
      assert Get(PeriodOf(t, key), f) == Get(LeftIn(h, key), f) + Sum(Shares(t.counters, h, key, f));
    }
  }

  lemma AddKeepsBooks(t: Traffic, h: History, inbound: int, upload: bool, bytes: int)
    requires Books(t, h) && inbound in t.counters
    ensures Books(AddTraffic(t, inbound, upload, bytes), h)
  {
    hide Sum, Shares;
    if bytes > 0 {
      var t' := AddTraffic(t, inbound, upload, bytes);
      assert h.(carried := h.carried[inbound := h.carried[inbound]]) == h;
      forall key, f ensures Get(PeriodOf(t', key), f) == Get(LeftIn(h, key), f) + Sum(Shares(t'.counters, h, key, f)) {
        SharesMove(t.counters, h, inbound, t'.counters[inbound], h.carried[inbound], key, f);
        assert Get(PeriodOf(t, key), f) == Get(LeftIn(h, key), f) + Sum(Shares(t.counters, h, key, f));
      }
    }
  }

  lemma AcknowledgeKeepsBooks(t: Traffic, h: History, inbound: int, checkpoint: Checkpoint)
    requires Books(t, h) && inbound in t.counters
    ensures Books(Acknowledge(t, inbound, checkpoint), h)
  {
    hide Sum, Shares;
    if Applies(t.counters[inbound], checkpoint) {
      var t' := Acknowledge(t, inbound, checkpoint);
      assert h.(carried := h.carried[inbound := h.carried[inbound]]) == h;
      forall key, f ensures Get(PeriodOf(t', key), f) == Get(LeftIn(h, key), f) + Sum(Shares(t'.counters, h, key, f)) {
        SharesMove(t.counters, h, inbound, t'.counters[inbound], h.carried[inbound], key, f);
        assert Get(PeriodOf(t, key), f) == Get(LeftIn(h, key), f) + Sum(Shares(t.counters, h, key, f));
      }
    }
  }

  function WithPeriod(t: Traffic, key: string, p: Totals): Traffic {
    t.(periods := t.periods[key := p])
  }

  lemma EmptyPeriodKeepsBooks(t: Traffic, h: History, key: string)
    requires Books(t, h)
    ensures Books(WithPeriod(t, key, PeriodOf(t, key)), h)
    ensures forall k :: PeriodOf(WithPeriod(t, key, PeriodOf(t, key)), k) == PeriodOf(t, k)
  {
    hide Sum, Shares;
    var t' := WithPeriod(t, key, PeriodOf(t, key));
    forall k, f ensures Get(PeriodOf(t', k), f) == Get(LeftIn(h, k), f) + Sum(Shares(t'.counters, h, k, f)) {
      assert Get(PeriodOf(t, k), f) == Get(LeftIn(h, k), f) + Sum(Shares(t.counters, h, k, f));
    }
  }

  lemma InstallKeepsBooks(t: Traffic, h: History, inbound: int, policy: Policy, newEpoch: string)
    requires Books(t, h) && inbound in t.counters
    ensures Books(SetPolicy(t, inbound, policy, newEpoch), Moved(t, h, inbound, policy, newEpoch))
  {
    hide Sum, Shares;
    var t', h' := SetPolicy(t, inbound, policy, newEpoch), Moved(t, h, inbound, policy, newEpoch);
    assert h.(carried := h.carried[inbound := h.carried[inbound]]) == h;
    forall key, f ensures Get(PeriodOf(t', key), f) == Get(LeftIn(h', key), f) + Sum(Shares(t'.counters, h', key, f)) {
      SharesMove(t.counters, h, inbound, t'.counters[inbound], h'.carried[inbound], key, f);
      SharesIgnoreLeft(t'.counters, h', h.(carried := h'.carried), key, f);
      assert Get(PeriodOf(t, key), f) == Get(LeftIn(h, key), f) + Sum(Shares(t.counters, h, key, f));
    }
  }

  lemma SharesIgnoreLeft(counters: map<int, Counter>, h: History, h': History, key: string, f: Field)
    requires h.carried == h'.carried && h.carried.Keys == counters.Keys
    ensures Shares(counters, h, key, f) == Shares(counters, h', key, f)
  {
  }

  ghost function CarriedColumn(h: History, f: Field): map<int, int> {
    map i | i in h.carried :: Get(h.carried[i], f)
  }

  ghost function CarriedTotal(h: History, f: Field): int {
    Sum(CarriedColumn(h, f))
  }

  lemma SharesAreDifferences(counters: map<int, Counter>, h: History, key: string, f: Field)
    requires h.carried.Keys == counters.Keys && forall i :: i in counters ==> counters[i].policy.periodKey == key
    ensures Sum(Shares(counters, h, key, f)) == Total(counters, f) - CarriedTotal(h, f)
  {
    SumOfDifferences(Column(counters, f), CarriedColumn(h, f), Shares(counters, h, key, f));
  }

  lemma {:induction false} SumOfDifferences(a: map<int, int>, b: map<int, int>, d: map<int, int>)
    requires a.Keys == b.Keys == d.Keys && forall k :: k in d ==> d[k] == a[k] - b[k]
    ensures Sum(d) == Sum(a) - Sum(b)
    decreases |d|
  {
    hide Sum;
    if d == map[] {
      EmptySum(a);
      EmptySum(b);
      EmptySum(d);
    } else {
      var k := AnyKey(d);
      SumOfDifferences(a - {k}, b - {k}, d - {k});
      SumWithout(a, k);
      SumWithout(b, k);
      SumWithout(d, k);
    }
  }

  /**
   In every reachable state in which all counters are on one period, its usage
   is the sum of the counters exactly if what they carried into it equals what
   earlier counters left in it.
   */
  lemma PeriodBalancesIff(t: Traffic, h: History, key: string)
    requires Books(t, h) && forall i :: i in t.counters ==> t.counters[i].policy.periodKey == key
    ensures Consistent(t, key) <==> forall f :: Get(LeftIn(h, key), f) == CarriedTotal(h, f)
  {
    hide Sum, Shares, Total, CarriedTotal;
    forall f ensures Get(PeriodOf(t, key), f) == Get(LeftIn(h, key), f) + Total(t.counters, f) - CarriedTotal(h, f) {
      SharesAreDifferences(t.counters, h, key, f);
      assert Get(PeriodOf(t, key), f) == Get(LeftIn(h, key), f) + Sum(Shares(t.counters, h, key, f));
    }
  }

  // ---------------------------------------------------------------------------
  // The objects
  // ---------------------------------------------------------------------------

  /** The counters of one user on all inbounds and the usage they share. */
  class UserTraffic {
    var counters: map<int, Counter>
    var periods: map<string, Totals>
    ghost var history: History

    ghost function Model(): Traffic
      reads this
    {
      Traffic(counters, periods)
    }

    ghost predicate Valid()
      reads this
    {
      Books(Model(), history)
    }

    constructor ()
      ensures Valid() && Model() == Traffic(map[], map[]) && history == History(map[], map[])
    {
      counters, periods, history := map[], map[], History(map[], map[]);
      new;
      forall key, f ensures Sum(Shares(counters, history, key, f)) == 0 {
        EmptySum(Shares(counters, history, key, f));
      }
    }

    /** An inbound joins with an empty counter and no policy. */
    method Join(inbound: int, epoch: string)
      requires Valid() && inbound !in counters
      modifies this
      ensures Valid() && Model() == Joined(old(Model()), inbound, epoch)
      ensures history == old(history).(carried := old(history).carried[inbound := ZERO])
    {
      JoinKeepsBooks(Model(), history, inbound, epoch);
      counters := counters[inbound := Counter(epoch, NO_POLICY, ZERO)];
      history := history.(carried := history.carried[inbound := ZERO]);
    }

    /** A new inbound has its policy, if there is one, before it counts anything: balanced books stay balanced. */
    method Enter(inbound: int, epoch: string, policy: Option<Policy>)
      requires Valid() && inbound !in counters
      modifies this
      ensures Valid() && periods == old(periods)
      ensures counters ==
              old(counters)[inbound := Counter(epoch, if policy.Some? then policy.value else NO_POLICY, ZERO)]
      ensures policy.Some? && old(Consistent(Model(), policy.value.periodKey)) ==>
                Consistent(Model(), policy.value.periodKey)
    {
      Join(inbound, epoch);
      if policy.Some? {
        InstallPolicy(inbound, policy.value, epoch);
        if old(Consistent(Model(), policy.value.periodKey)) {
          ZeroCounterKeepsSums(old(Model()), policy.value.periodKey, inbound, counters[inbound]);
        }
      }
    }

    method Period(key: string) returns (p: Totals)
      modifies this`periods
      ensures p == PeriodOf(old(Model()), key) && periods == old(periods)[key := p]
    {
      if key !in periods {
        periods := periods[key := ZERO];
      }
      p := periods[key];
    }

    method AddBytes(inbound: int, upload: bool, bytes: int)
      requires Valid() && inbound in counters
      modifies this`counters, this`periods
      ensures Model() == AddTraffic(old(Model()), inbound, upload, bytes)
      ensures Valid()
    {
      hide Books;
      AddKeepsBooks(Model(), history, inbound, upload, bytes);
      if bytes <= 0 {
        return;
      }
      var c := counters[inbound];
      if upload {
        c := c.(totals := c.totals.(up := c.totals.up + bytes));
      } else {
        c := c.(totals := c.totals.(down := c.totals.down + bytes));
      }
      counters := counters[inbound := c];
      var p := Period(c.policy.periodKey);
      if upload {
        p := p.(up := p.up + bytes);
      } else {
        p := p.(down := p.down + bytes);
      }
      periods := periods[c.policy.periodKey := p];
    }

    static method Clamp(checkpoint: int, total: int, previous: int) returns (acknowledged: int)
      ensures acknowledged == Settle(checkpoint, total, previous)
    {
      acknowledged := if checkpoint < total then checkpoint else total;
      if acknowledged < 0 {
        acknowledged := 0;
      }
      if acknowledged < previous {
        acknowledged := previous;
      }
    }

    method Settled(inbound: int, checkpoint: Checkpoint)
      requires Valid() && inbound in counters
      modifies this`counters, this`periods
      ensures Model() == Acknowledge(old(Model()), inbound, checkpoint)
      ensures Valid()
    {
      hide Books;
      AcknowledgeKeepsBooks(Model(), history, inbound, checkpoint);
      if checkpoint.periodKey == "" {
        return;
      }
      var c := counters[inbound];
      if c.policy.periodKey != checkpoint.periodKey {
        return;
      }
      if checkpoint.epoch != "" && checkpoint.epoch != c.epoch {
        return;
      }
      var x := c.totals;
      var up := Clamp(checkpoint.up, x.up, x.ackUp);
      var down := Clamp(checkpoint.down, x.down, x.ackDown);
      counters := counters[inbound := c.(totals := x.(ackUp := up, ackDown := down))];
      var p := Period(checkpoint.periodKey);
      p := p.(ackUp := p.ackUp + (up - x.ackUp), ackDown := p.ackDown + (down - x.ackDown));
      periods := periods[checkpoint.periodKey := p];
    }

    /** The check before each transfer; it may create the period's empty record. */
    method Exceeded(inbound: int) returns (over: bool)
      requires Valid() && inbound in counters
      modifies this`periods
      ensures over == QuotaExceeded(old(Model()), inbound)
      ensures Valid() && forall key :: PeriodOf(Model(), key) == PeriodOf(old(Model()), key)
    {
      hide Books, PeriodOf, Cap, Unacknowledged;
      var policy := counters[inbound].policy;
      if policy.exceeded {
        return true;
      }
      if policy.limit <= 0 {
        return false;
      }
      var cap := CapBytes(policy);
      ghost var was := Model();
      EmptyPeriodKeepsBooks(was, history, policy.periodKey);
      var p := Period(policy.periodKey);
      assert Model() == WithPeriod(was, policy.periodKey, p);
      var used := policy.baseline + Unacknowledged(p);
      return used >= cap;
    }

    static method CapBytes(policy: Policy) returns (cap: int)
      ensures cap == Cap(policy)
    {
      cap := policy.limit;
      if policy.leaseEnforced {
        var lease := policy.lease;
        if lease < 0 {
          lease := 0;
        }
        if policy.baseline + lease < cap {
          cap := policy.baseline + lease;
        }
      }
    }

    method InstallPolicy(inbound: int, policy: Policy, newEpoch: string)
      requires Valid() && inbound in counters
      modifies this`counters, this`history
      ensures Model() == SetPolicy(old(Model()), inbound, policy, newEpoch)
      ensures Valid() && history == Moved(old(Model()), old(history), inbound, policy, newEpoch)
    {
      assert inbound in history.carried;
      hide Books;
      InstallKeepsBooks(Model(), history, inbound, policy, newEpoch);
      history := Moved(Model(), history, inbound, policy, newEpoch);
      var c := counters[inbound];
      var changed := c.policy.periodKey != "" && policy.periodKey != "" && c.policy.periodKey != policy.periodKey;
      if changed && (policy.previousPeriodKey == "" || policy.previousPeriodKey != c.policy.periodKey) {
        c := c.(epoch := newEpoch, totals := ZERO);
      }
      counters := counters[inbound := c.(policy := policy)];
    }
  }
}
