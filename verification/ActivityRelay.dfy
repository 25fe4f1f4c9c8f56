/**
 The persist-then-acknowledge relay of internal/agent/account_activity.go:
 reports go from two collectors (the kernel's, and the Agent's own for SSH) into
 a durable file and from there to the Controller. Every outcome the Agent does
 not control is left open: lost replies, failed saves, refused posts, kernel
 restarts, and a crash of the Agent after any step. With the audit off the file
 is thrown away.
 */
module ActivityRelay {
  import opened ActivityReport
  import opened DeliveryProtocol
  import opened AtomicWrite
  import opened Wrappers

  const MAX_PENDING: nat := 256
  const BATCH: nat := 8
  const KERNEL := "kernel"
  const SSH := "ssh"

  // ---------------------------------------------------------------------------
  // The trail: what was settled, followed by what the file still holds
  // ---------------------------------------------------------------------------

  predicate SameLine(a: Report, b: Report) {
    a.boot == b.boot && a.stream == b.stream
  }

  predicate SameId(a: Report, b: Report) {
    SameLine(a, b) && a.sequence == b.sequence
  }

  ghost predicate Holds(trail: seq<Report>, boot: string, stream: string, k: nat) {
    exists i :: 0 <= i < |trail| && trail[i].boot == boot && trail[i].stream == stream && trail[i].sequence == k
  }

  /** `r` is the next report of its line, or repeats the last one unchanged. */
  ghost predicate Extends(trail: seq<Report>, r: Report) {
    && r.sequence >= 1
    && (forall i :: 0 <= i < |trail| && SameLine(trail[i], r) ==>
          trail[i].sequence <= r.sequence && (trail[i].sequence == r.sequence ==> trail[i] == r))
    && (forall k: nat :: 1 <= k < r.sequence ==> Holds(trail, r.boot, r.stream, k))
  }

  /** Every report extends what precedes it. */
  ghost predicate WellFormed(trail: seq<Report>) {
    forall i :: 0 <= i < |trail| ==> Extends(trail[..i], trail[i])
  }

  /** Numbers the collector may forget: all but the pending one. */
  function Released(e: Endpoint): nat {
    if e.pending.Some? && e.sequence > 0 then e.sequence - 1 else e.sequence
  }

  /** The trail has everything the collector has let go of, and nothing it has not issued. */
  ghost predicate Backs(trail: seq<Report>, e: Endpoint, stream: string) {
    && WellNumbered(e, stream)
    && (e.boot != "" ==>
          && (forall i :: 0 <= i < |trail| && trail[i].boot == e.boot && trail[i].stream == stream ==>
                && trail[i].sequence <= e.sequence
                && (e.pending.Some? && trail[i].sequence == e.sequence ==> trail[i] == e.pending.value))
          && (forall k: nat :: 1 <= k <= Released(e) ==> Holds(trail, e.boot, stream, k)))
  }

  // --- what well-formedness means for the reader of a trail -------------------

  /** Within a boot and stream the trail never steps back and never changes a report. */
  lemma TrailIsOrderedAndStable(trail: seq<Report>, i: nat, j: nat)
    requires WellFormed(trail) && i < j < |trail| && SameLine(trail[i], trail[j])
    ensures trail[i].sequence <= trail[j].sequence
    ensures SameId(trail[i], trail[j]) ==> trail[i] == trail[j]
  {
    assert Extends(trail[..j], trail[j]);
    assert trail[..j][i] == trail[i];
  }

  /** Whatever number appears, all lower numbers of its boot and stream appear before it. */
  lemma TrailIsGapFree(trail: seq<Report>, i: nat, k: nat)
    requires WellFormed(trail) && i < |trail| && 1 <= k < trail[i].sequence
    ensures exists j :: 0 <= j < i && SameLine(trail[j], trail[i]) && trail[j].sequence == k
  {
    assert Extends(trail[..i], trail[i]);
    var before, r := trail[..i], trail[i];
    assert Holds(before, r.boot, r.stream, k);
    var j :| 0 <= j < i && before[j].boot == r.boot && before[j].stream == r.stream && before[j].sequence == k;
    assert trail[j] == before[j];
  }

  // --- steps ------------------------------------------------------------------

  lemma HoldsGrows(trail: seq<Report>, more: seq<Report>, boot: string, stream: string, k: nat)
    requires Holds(trail, boot, stream, k)
    ensures Holds(trail + more, boot, stream, k)
  {
    var i :| 0 <= i < |trail| && trail[i].boot == boot && trail[i].stream == stream && trail[i].sequence == k;
    assert (trail + more)[i] == trail[i];
  }

  lemma AppendKeepsForm(trail: seq<Report>, r: Report)
    requires WellFormed(trail) && Extends(trail, r)
    ensures WellFormed(trail + [r])
  {
    var t := trail + [r];
    forall i | 0 <= i < |t| ensures Extends(t[..i], t[i]) {
      assert t[..i] == if i < |trail| then trail[..i] else trail;
    }
  }

  lemma AppendKeepsBacking(trail: seq<Report>, r: Report, e: Endpoint, stream: string)
    requires Backs(trail, e, stream)
    requires r.boot == e.boot && r.stream == stream ==>
               e.pending == Some(r) || (exists i :: 0 <= i < |trail| && trail[i] == r)
    ensures Backs(trail + [r], e, stream)
  {
    if e.boot != "" {
      forall k: nat | 1 <= k <= Released(e) ensures Holds(trail + [r], e.boot, stream, k) {
        HoldsGrows(trail, [r], e.boot, stream, k);
      }
    }
  }

  lemma PendingExtends(trail: seq<Report>, e: Endpoint, stream: string)
    requires Backs(trail, e, stream) && e.pending.Some?
    ensures Extends(trail, e.pending.value)
  {
  }

  /** Handing the head of the list to the Controller while the file still has it. */
  lemma DeliverKeepsForm(delivered: seq<Report>, rest: seq<Report>)
    requires rest != [] && WellFormed(delivered + rest)
    ensures WellFormed(delivered + [rest[0]] + rest) && WellFormed(delivered + [rest[0]] + rest[1..])
  {
    var t, u, r := delivered + rest, delivered + [rest[0]] + rest, rest[0];
    assert delivered + [rest[0]] + rest[1..] == t;
    forall i | 0 <= i < |u| ensures Extends(u[..i], u[i]) {
      if i <= |delivered| {
        assert u[..i] == t[..i] && u[i] == t[i];
      } else {
        RepeatKeepsExtends(delivered, r, rest, i - 1);
        assert u[..i] == delivered + [r] + rest[..i - 1 - |delivered|] && u[i] == t[i - 1];
      }
    }
  }

  lemma RepeatKeepsExtends(delivered: seq<Report>, r: Report, rest: seq<Report>, i: nat)
    requires rest != [] && r == rest[0] && WellFormed(delivered + rest) && |delivered| <= i < |delivered + rest|
    ensures Extends(delivered + [r] + rest[..i - |delivered|], (delivered + rest)[i])
  {
    var t := delivered + rest;
    var before, after := t[..i], delivered + [r] + rest[..i - |delivered|];
    assert Extends(t[..|delivered|], t[|delivered|]) && t[|delivered|] == r;
    assert Extends(before, t[i]);
    forall j | 0 <= j < |after| && SameLine(after[j], t[i])
      ensures after[j].sequence <= t[i].sequence && (after[j].sequence == t[i].sequence ==> after[j] == t[i])
    {
      if j < |delivered| {
        assert before[j] == after[j];
      } else if j == |delivered| {
        if i > |delivered| { assert before[|delivered|] == r; }
      } else {
        assert before[j - 1] == after[j];
      }
    }
    forall k: nat | 1 <= k < t[i].sequence ensures Holds(after, t[i].boot, t[i].stream, k) {
      var at := t[i];
      assert Holds(before, at.boot, at.stream, k);
      var j :| 0 <= j < |before| && before[j].boot == at.boot && before[j].stream == at.stream
               && before[j].sequence == k;
      assert after[if j < |delivered| then j else j + 1] == before[j];
    }
  }

  /** Backing depends only on which reports the trail has. */
  lemma BackingByMembers(trail: seq<Report>, trail': seq<Report>, e: Endpoint, stream: string)
    requires Backs(trail, e, stream) && (forall r :: r in trail <==> r in trail')
    ensures Backs(trail', e, stream)
  {
    if e.boot != "" {
      forall i | 0 <= i < |trail'| && trail'[i].boot == e.boot && trail'[i].stream == stream
        ensures trail'[i].sequence <= e.sequence
        ensures e.pending.Some? && trail'[i].sequence == e.sequence ==> trail'[i] == e.pending.value
      {
        assert trail'[i] in trail;
      }
      forall k: nat | 1 <= k <= Released(e) ensures Holds(trail', e.boot, stream, k) {
        assert Holds(trail, e.boot, stream, k);
        var i :| 0 <= i < |trail| && trail[i].boot == e.boot && trail[i].stream == stream && trail[i].sequence == k;
        assert trail[i] in trail';
      }
    }
  }

  lemma ReadKeepsBacking(trail: seq<Report>, e: Endpoint, e': Endpoint, stream: string, r: Option<Report>)
    requires Backs(trail, e, stream) && ReadStep(e, e', stream, r)
    requires e'.boot != e.boot ==> forall i :: 0 <= i < |trail| ==> trail[i].boot != e'.boot
    ensures Backs(trail, e', stream)
  {
  }

  lemma AckKeepsBacking(trail: seq<Report>, e: Endpoint, stream: string, r: Report)
    requires Backs(trail, e, stream) && r in trail && r.stream == stream
    ensures Backs(trail, AckStep(e, r.boot, r.sequence), stream)
  {
    var e' := AckStep(e, r.boot, r.sequence);
    if e' != e {
      var i :| 0 <= i < |trail| && trail[i] == r;
      assert Holds(trail, e.boot, stream, e.sequence);
    }
  }

  // ---------------------------------------------------------------------------
  // The relay
  // ---------------------------------------------------------------------------

  datatype Past = Past(
    settled: seq<Report>,    // taken by the Controller or discarded, in order
    taken: set<Report>,      // acknowledged by the Controller
    discarded: set<Report>,  // thrown away because the audit was switched off
    posted: set<Report>,     // sent to the Controller, acknowledged or not
    acked: set<Report>,      // acknowledged to a collector
    issued: set<Report>,     // frozen by a collector and read at least once
    answers: set<Answer>)    // replies of the Controller

  datatype Status = Fine | Failed | Down

  datatype Reply = Reply(sequence: nat, accepted: bool, terminal: bool, reason: string)

  /** What the Controller replied to a post. */
  datatype Answer = Answer(report: Report, reply: Reply)

  /** The reply lets go of the report: accepted, or refused for good for a known reason. */
  predicate Acknowledges(reply: Reply, r: Report) {
    && reply.sequence == r.sequence && (reply.accepted || reply.terminal)
    && (reply.terminal ==> reply.reason in {"expired", "disabled", "subject_removed"})
  }

  /**
   With `list` as the undelivered rest, nothing acknowledged is missing, nothing
   posted can change, and every line is a gap-free prefix.
   */
  ghost predicate Sound(list: seq<Report>, kernel: Endpoint, ssh: Endpoint, boots: set<string>, past: Past) {
    var trail := past.settled + list;
    && WellFormed(trail)
    && Backs(trail, kernel, KERNEL) && Backs(trail, ssh, SSH)
    && (forall r :: r in past.acked || r in past.posted ==> r in trail)
    && (forall r :: r in past.settled ==> r in past.taken || r in past.discarded)
    && Answered(past)
    && (forall r :: r in trail ==> r in past.issued)
    && Registry(past.issued, boots) && Registered(past.issued, kernel, KERNEL) && Registered(past.issued, ssh, SSH)
    && kernel.boot in boots && ssh.boot in boots && "" in boots
  }

  /** Whatever counts as taken was let go by a reply of the Controller. */
  ghost predicate Answered(past: Past) {
    forall r :: r in past.taken ==> exists a :: a in past.answers && a.report == r && Acknowledges(a.reply, r)
  }

  /** An identity belongs to one report for good. */
  ghost predicate Registry(issued: set<Report>, boots: set<string>) {
    && (forall r :: r in issued ==> r.boot in boots && r.boot != "")
    && (forall a, b :: a in issued && b in issued && SameId(a, b) ==> a == b)
  }

  /** The collector has not gone beyond its own number, and its pending report is known. */
  ghost predicate Registered(issued: set<Report>, e: Endpoint, stream: string) {
    && (forall r :: r in issued && r.boot == e.boot && r.stream == stream ==> r.sequence <= e.sequence)
    && (e.pending.Some? ==> e.pending.value in issued)
  }

  function Seen(past: Past, r: Option<Report>): Past {
    if r.Some? then past.(issued := past.issued + {r.value}) else past
  }

  /** A read adds at most a report with a number of its own. */
  lemma ReadIsRegistered(issued: set<Report>, boots: set<string>, e: Endpoint, e': Endpoint, stream: string,
      other: Endpoint, otherStream: string, r: Option<Report>)
    requires Registry(issued, boots) && Registered(issued, e, stream) && Registered(issued, other, otherStream)
    requires ReadStep(e, e', stream, r) && r == e'.pending && WellNumbered(e, stream) && stream != otherStream
    requires e'.boot != e.boot ==> e'.boot !in boots
    ensures var issued' := if r.Some? then issued + {r.value} else issued;
            && Registry(issued', boots + {e'.boot}) && Registered(issued', e', stream)
            && Registered(issued', other, otherStream)
  {
  }

  /** A read of one collector keeps everything sound, and offers what it returns. */
  lemma ReadIsSound(list: seq<Report>, kernel: Endpoint, ssh: Endpoint, kernel': Endpoint, ssh': Endpoint,
      boots: set<string>, past: Past, r: Option<Report>, ofKernel: bool)
    requires Sound(list, kernel, ssh, boots, past)
    requires if ofKernel then ssh' == ssh && ReadStep(kernel, kernel', KERNEL, r) && kernel'.pending == r
             else kernel' == kernel && ReadStep(ssh, ssh', SSH, r) && ssh'.pending == r
    requires ofKernel && kernel'.boot != kernel.boot ==> kernel'.boot !in boots
    requires !ofKernel && ssh'.boot != ssh.boot ==> ssh'.boot !in boots
    ensures var boots' := boots + {if ofKernel then kernel'.boot else ssh'.boot};
            && Sound(list, kernel', ssh', boots', Seen(past, r))
            && (r.Some? ==> Offered(list, kernel', ssh', boots', Seen(past, r), r.value))
  {
    hide WellFormed, Registry, Registered;
    var trail := past.settled + list;
    assert forall x :: x in trail ==> x.boot in boots by { KnownBoots(trail, past.issued, boots); }
    if ofKernel {
      ReadIsRegistered(past.issued, boots, kernel, kernel', KERNEL, ssh, SSH, r);
      ReadKeepsBacking(trail, kernel, kernel', KERNEL, r);
    } else {
      ReadIsRegistered(past.issued, boots, ssh, ssh', SSH, kernel, KERNEL, r);
      ReadKeepsBacking(trail, ssh, ssh', SSH, r);
    }
    if r.Some? {
      PendingExtends(trail, if ofKernel then kernel' else ssh', if ofKernel then KERNEL else SSH);
    }
  }

  lemma KnownBoots(trail: seq<Report>, issued: set<Report>, boots: set<string>)
    requires Registry(issued, boots) && forall r :: r in trail ==> r in issued
    ensures forall r :: r in trail ==> r.boot in boots
  {
  }

  /** `r` came from a collector that still holds it, or has since restarted. */
  ghost predicate Offered(list: seq<Report>, kernel: Endpoint, ssh: Endpoint, boots: set<string>, past: Past,
      r: Report) {
    && Extends(past.settled + list, r) && r.boot in boots && r.boot != "" && r in past.issued
    && (r.boot == kernel.boot && r.stream == KERNEL ==> kernel.pending == Some(r))
    && (r.boot == ssh.boot && r.stream == SSH ==> ssh.pending == Some(r))
  }

  lemma AppendIsSound(list: seq<Report>, kernel: Endpoint, ssh: Endpoint, boots: set<string>, past: Past, r: Report)
    requires Sound(list, kernel, ssh, boots, past) && Offered(list, kernel, ssh, boots, past, r)
    ensures Sound(list + [r], kernel, ssh, boots, past)
  {
    var trail := past.settled + list;
    assert past.settled + (list + [r]) == trail + [r];
    AppendKeepsForm(trail, r);
    AppendKeepsBacking(trail, r, kernel, KERNEL);
    AppendKeepsBacking(trail, r, ssh, SSH);
  }

  /** The report was posted, and this is what came back, if anything. */
  function Posted(past: Past, r: Report, reply: Option<Reply>): Past {
    past.(posted := past.posted + {r},
          answers := past.answers + if reply.Some? then {Answer(r, reply.value)} else {})
  }

  function Delivered(past: Past, r: Report, reply: Option<Reply>): Past {
    Posted(past, r, reply).(settled := past.settled + [r], taken := past.taken + {r})
  }

  lemma DeliveryIsSound(list: seq<Report>, kernel: Endpoint, ssh: Endpoint, boots: set<string>, past: Past)
    requires list != [] && Sound(list, kernel, ssh, boots, past)
    requires exists a :: a in past.answers && a.report == list[0] && Acknowledges(a.reply, list[0])
    ensures var past' := past.(settled := past.settled + [list[0]], taken := past.taken + {list[0]});
            Sound(list, kernel, ssh, boots, past') && Sound(list[1..], kernel, ssh, boots, past')
  {
    var trail := past.settled + list;
    var past' := past.(settled := past.settled + [list[0]], taken := past.taken + {list[0]});
    var longer := past'.settled + list;
    DeliverKeepsForm(past.settled, list);
    assert past'.settled + list[1..] == trail;
    forall r ensures r in longer <==> r in trail {}
    BackingByMembers(trail, longer, kernel, KERNEL);
    BackingByMembers(trail, longer, ssh, SSH);
  }

  /** Posting a report of the trail, whatever comes back, changes nothing else. */
  lemma PostIsSound(list: seq<Report>, kernel: Endpoint, ssh: Endpoint, boots: set<string>, past: Past, r: Report,
                    reply: Option<Reply>)
    requires Sound(list, kernel, ssh, boots, past) && r in past.settled + list
    ensures Sound(list, kernel, ssh, boots, Posted(past, r, reply))
  {
    hide WellFormed, Backs, Registry, Registered, Acknowledges;
  }

  function Discarded(past: Past, list: seq<Report>): Past {
    past.(settled := past.settled + list, discarded := past.discarded + set r | r in list)
  }

  /** Throwing the rest away changes who has it, not what the trail is. */
  lemma DiscardIsSound(list: seq<Report>, kernel: Endpoint, ssh: Endpoint, boots: set<string>, past: Past)
    requires Sound(list, kernel, ssh, boots, past)
    ensures Sound([], kernel, ssh, boots, Discarded(past, list))
  {
    assert past.settled + list + [] == past.settled + list;
  }

  lemma AckIsSound(list: seq<Report>, kernel: Endpoint, ssh: Endpoint, boots: set<string>, past: Past, r: Report)
    requires Sound(list, kernel, ssh, boots, past) && r in list
    ensures r.stream == KERNEL ==>
              Sound(list, AckStep(kernel, r.boot, r.sequence), ssh, boots, past.(acked := past.acked + {r}))
    ensures r.stream == SSH ==>
              Sound(list, kernel, AckStep(ssh, r.boot, r.sequence), boots, past.(acked := past.acked + {r}))
  {
    if r.stream == KERNEL {
      AckKeepsBacking(past.settled + list, kernel, KERNEL, r);
    }
    if r.stream == SSH {
      AckKeepsBacking(past.settled + list, ssh, SSH, r);
    }
  }

  /**
   The promise, read off at any instant: a report acknowledged to its collector
   is in the durable file, was acknowledged by the Controller or went when the
   audit was switched off, and two posts under one identity are the same report.
   */
  lemma NothingAcknowledgedIsLost(file: seq<Report>, kernel: Endpoint, ssh: Endpoint, boots: set<string>, past: Past,
      a: Report, b: Report)
    requires Sound(file, kernel, ssh, boots, past)
    ensures a in past.acked ==> a in file || a in past.taken || a in past.discarded
    ensures a in past.posted && b in past.posted && SameId(a, b) ==> a == b
  {
    var trail := past.settled + file;
    if a in past.posted && b in past.posted && SameId(a, b) {
      var i :| 0 <= i < |trail| && trail[i] == a;
      var j :| 0 <= j < |trail| && trail[j] == b;
      if i < j {
        TrailIsOrderedAndStable(trail, i, j);
      } else if j < i {
        TrailIsOrderedAndStable(trail, j, i);
      }
    }
  }

  /**
   A report counts as taken only after a reply of the Controller to that very
   report: it repeats the report's number and accepts it, or refuses it for good
   because it expired, the audit is disabled or its subject was removed.
   */
  lemma TakenWasAnswered(file: seq<Report>, kernel: Endpoint, ssh: Endpoint, boots: set<string>, past: Past, r: Report)
      returns (reply: Reply)
    requires Sound(file, kernel, ssh, boots, past) && r in past.taken
    ensures Answer(r, reply) in past.answers && reply.sequence == r.sequence
    ensures !reply.terminal ==> reply.accepted
    ensures reply.terminal ==>
              reply.reason == "expired" || reply.reason == "disabled" || reply.reason == "subject_removed"
  {
    var a :| a in past.answers && a.report == r && Acknowledges(a.reply, r);
    reply := a.reply;
    assert a == Answer(r, reply);
  }

  class Relay {
    var file: seq<Report>    // account-activity-pending.json
    var kernel: Endpoint     // the kernel's collector, in another process
    var ssh: Endpoint        // the Agent's own collector, lost with the Agent
    var boots: set<string>   // random boot names never repeat
    ghost var past: Past
    ghost var setbacks: nat  // reads, saves, acknowledgements and posts that went wrong

    ghost predicate Valid()
      reads this
    {
      Sound(file, kernel, ssh, boots, past) && |file| <= MAX_PENDING
    }

    /** While a call runs, its own list and the file are both sound. */
    ghost predicate Running(pending: seq<Report>)
      reads this
    {
      Valid() && Sound(pending, kernel, ssh, boots, past) && pending <= file
    }

    constructor ()
      ensures Valid() && file == [] && past == Past([], {}, {}, {}, {}, {}, {})
    {
      file, kernel, ssh, boots := [], UNREAD, UNREAD, {""};
      past, setbacks := Past([], {}, {}, {}, {}, {}, {}), 0;
    }

    /** The Agent dies and restarts with an empty SSH collector. */
    method Crash()
      requires Valid()
      modifies this
      ensures Valid() && file == old(file) && past == old(past) && kernel == old(kernel) && setbacks == old(setbacks)
    {
      ssh := UNREAD;
    }

    /** The kernel may restart at any time. */
    method KernelMoves(ghost pending: seq<Report>, ghost held: Option<Report>)
      requires Running(pending)
      requires held.Some? ==> Offered(pending, kernel, ssh, boots, past, held.value)
      modifies this`kernel
      ensures Running(pending) && (kernel == old(kernel) || kernel == UNREAD)
      ensures held.Some? ==> Offered(pending, kernel, ssh, boots, past, held.value)
    {
      if * {
        kernel := UNREAD;
      }
    }

    /** A collector answers with the report it holds, a fresh one or none; a boot name must be new. */
    method ReadEndpoint(e: Endpoint, stream: string) returns (e': Endpoint, r: Option<Report>)
      requires WellNumbered(e, stream) && e.boot in boots && "" in boots
      modifies this`boots
      ensures boots == old(boots) + {e'.boot} && ReadStep(e, e', stream, r)
      ensures e'.boot != e.boot ==> e'.boot !in old(boots)
      ensures e'.pending == r
    {
      e', r := e, e.pending;
      var due: bool := *;
      if e.pending.None? && due {
        var boot: string, body: Report := *, *;
        if e.boot != "" {
          boot := e.boot;
        } else if boot in boots {
          return;
        }
        r := Some(body.(boot := boot, sequence := e.sequence + 1, stream := stream));
        e' := Endpoint(boot, e.sequence + 1, r);
        boots := boots + {boot};
      }
    }

    /** A read of the kernel's collector. */
    method ReadKernel(ghost pending: seq<Report>) returns (r: Option<Report>)
      requires Running(pending)
      modifies this`kernel, this`boots, this`past
      ensures Running(pending) && r == kernel.pending && past == Seen(old(past), r)
      ensures r.Some? ==> AckStep(kernel, r.value.boot, r.value.sequence).pending.None?
      ensures r.Some? ==> r.value.stream == KERNEL && Offered(pending, kernel, ssh, boots, past, r.value)
    {
      assert WellNumbered(kernel, KERNEL) && kernel.boot in boots && "" in boots;
      hide Sound, Offered;
      ghost var before, names := kernel, boots;
      kernel, r := ReadEndpoint(kernel, KERNEL);
      ReadIsSound(pending, before, ssh, kernel, ssh, names, past, r, true);
      ReadIsSound(file, before, ssh, kernel, ssh, names, past, r, true);
      past := Seen(past, r);
    }

    method ReadSsh(ghost pending: seq<Report>) returns (r: Option<Report>)
      requires Running(pending)
      modifies this`ssh, this`boots, this`past
      ensures Running(pending) && r == ssh.pending && past == Seen(old(past), r)
      ensures r.Some? ==> AckStep(ssh, r.value.boot, r.value.sequence).pending.None?
      ensures r.Some? ==> r.value.stream == SSH && Offered(pending, kernel, ssh, boots, past, r.value)
    {
      assert WellNumbered(ssh, SSH) && ssh.boot in boots && "" in boots;
      hide Sound, Offered;
      ghost var before, names := ssh, boots;
      ssh, r := ReadEndpoint(ssh, SSH);
      ReadIsSound(pending, kernel, before, kernel, ssh, names, past, r, false);
      ReadIsSound(file, kernel, before, kernel, ssh, names, past, r, false);
      past := Seen(past, r);
    }

    /** Something the Agent does not control goes wrong, or does not. */
    method Setback() returns (struck: bool)
      modifies this`setbacks
      ensures setbacks == old(setbacks) + if struck then 1 else 0
    {
      struck := *;
      if struck {
        setbacks := setbacks + 1;
      }
    }

    /** A save that fails may already have replaced the file: the rename precedes the directory sync. */
    method Save(items: seq<Report>) returns (outcome: Written)
      modifies this`file, this`setbacks
      ensures old(setbacks) <= setbacks
      ensures file == old(file) || (file == items && |items| <= MAX_PENDING)
      ensures outcome.Synced? ==> file == items
      ensures !outcome.Synced? ==> |items| > MAX_PENDING || old(setbacks) < setbacks
      ensures outcome.WriteCrashed? ==> old(setbacks) < setbacks
    {
      if |items| > MAX_PENDING {
        return WriteFailed;
      }
      var struck := Setback();
      if !struck {
        file := items;
        return Synced;
      }
      var published: bool, crashed: bool := *, *;
      if published {
        file := items;
      }
      return if crashed then WriteCrashed else WriteFailed;
    }

    /** The acknowledgement of a durable report; to the kernel it, or its reply, may be lost. */
    method Acknowledge(r: Report, ghost pending: seq<Report>) returns (status: Status)
      requires Running(pending) && r in pending && (r.stream == KERNEL || r.stream == SSH)
      modifies this`kernel, this`ssh, this`past, this`setbacks
      ensures Running(pending) && past == old(past).(acked := past.acked)
      ensures past.acked <= old(past).acked + {r} && old(setbacks) <= setbacks
      ensures if status.Fine? then r in past.acked else status.Failed? && old(setbacks) < setbacks
      ensures status.Fine? ==> LetsGo(r, old(kernel), old(ssh), kernel, ssh)
    {
      AckIsSound(pending, kernel, ssh, boots, past, r);
      AckIsSound(file, kernel, ssh, boots, past, r);
      if r.stream == SSH {
        ssh := AckStep(ssh, r.boot, r.sequence);
        past := past.(acked := past.acked + {r});
        return Fine;
      }
      var struck := Setback();
      var arrived: bool := *;
      if !struck || arrived {
        kernel := AckStep(kernel, r.boot, r.sequence);
        past := past.(acked := past.acked + {r});
      }
      return if struck then Failed else Fine;
    }

    /** The collector of the report's stream sees the acknowledgement, the other one nothing. */
    static predicate LetsGo(r: Report, kernel: Endpoint, ssh: Endpoint, kernel': Endpoint, ssh': Endpoint) {
      && kernel' == (if r.stream == KERNEL then AckStep(kernel, r.boot, r.sequence) else kernel)
      && ssh' == (if r.stream == SSH then AckStep(ssh, r.boot, r.sequence) else ssh)
    }

    /** The index of the entry with the report's identity, if any. */
    static method FindSame(pending: seq<Report>, r: Report) returns (k: Option<nat>)
      ensures k.Some? ==> k.value < |pending| && SameId(pending[k.value], r)
      ensures k.None? ==> forall i :: 0 <= i < |pending| ==> !SameId(pending[i], r)
    {
      for i := 0 to |pending|
        invariant forall j :: 0 <= j < i ==> !SameId(pending[j], r)
      {
        if SameId(pending[i], r) {
          return Some(i);
        }
      }
      return None;
    }

    /** Persist first, acknowledge after; a re-read report is never stored twice nor in conflict. */
    method Accept(pending: seq<Report>, report: Option<Report>) returns (next: seq<Report>, status: Status)
      requires Running(pending)
      requires report.Some? ==>
                 && (report.value.stream == KERNEL || report.value.stream == SSH)
                 && Offered(pending, kernel, ssh, boots, past, report.value)
      modifies this
      ensures Valid() && past == old(past).(acked := past.acked) && old(setbacks) <= setbacks
      ensures status != Down ==> Running(next)
      ensures status != Fine ==> |pending| >= MAX_PENDING || old(setbacks) < setbacks
      ensures setbacks == old(setbacks) && old(file) == pending ==> file == next && !status.Down?
      ensures report.Some? && report.value in past.acked && report.value !in old(past).acked ==> report.value in file
      ensures next == pending || (report.Some? && next == pending + [report.value])
      ensures status.Fine? && report.Some? ==> report.value in next && report.value in past.acked
      ensures status.Fine? && report.Some? ==> LetsGo(report.value, old(kernel), old(ssh), kernel, ssh)
      ensures report.None? ==> kernel == old(kernel) && ssh == old(ssh)
    {
      hide WellFormed, Backs, Registry, Registered;
      next, status := pending, Fine;
      if report.None? {
        return;
      }
      var r := report.value;
      var oversized := Setback();
      if oversized {
        return pending, Failed;
      }
      var same := FindSame(pending, r);
      if same.Some? {
        assert (past.settled + pending)[|past.settled| + same.value] == pending[same.value];
        if pending[same.value] != r {
          assert false;  // "activity local identity conflict" cannot happen
        }
        status := Acknowledge(r, pending);
        return;
      }
      AppendIsSound(pending, kernel, ssh, boots, past, r);
      var saved := Save(pending + [r]);
      if saved.WriteCrashed? {
        Crash();
        return pending, Down;
      }
      if saved.WriteFailed? {
        return pending, Failed;
      }
      next := pending + [r];
      status := Acknowledge(r, next);
    }

    /**
     Posts the oldest report. The file drops it only after a reply that lets go of
     it, which the clauses spell out; any other reply, or none, changes nothing
     but what was posted.
     */
    method SendHead(pending: seq<Report>, reply: Option<Reply>) returns (status: Status)
      requires Running(pending) && pending != []
      modifies this
      ensures Valid() && old(setbacks) <= setbacks && (!status.Fine? ==> old(setbacks) < setbacks)
      ensures past == Posted(old(past), pending[0], reply) || past == Delivered(old(past), pending[0], reply)
      ensures status.Fine? ==>
                Running(pending[1..]) && file == pending[1..] && past == Delivered(old(past), pending[0], reply)
      ensures reply.None? || reply.value.sequence != pending[0].sequence
              || (!reply.value.accepted && !reply.value.terminal)
              || (reply.value.terminal && reply.value.reason != "expired" && reply.value.reason != "disabled"
                  && reply.value.reason != "subject_removed") ==>
                !status.Fine? && file == old(file) && past == Posted(old(past), pending[0], reply)
      ensures reply.Some? && reply.value.sequence == pending[0].sequence
              && (if reply.value.terminal
                  then reply.value.reason == "expired" || reply.value.reason == "disabled"
                       || reply.value.reason == "subject_removed"
                  else reply.value.accepted) ==>
                past == Delivered(old(past), pending[0], reply)
    {
      hide Sound;
      var head := pending[0];
      PostIsSound(pending, kernel, ssh, boots, past, head, reply);
      PostIsSound(file, kernel, ssh, boots, past, head, reply);
      past := Posted(past, head, reply);
      KernelMoves(pending, None);
      if reply.None? {
        setbacks := setbacks + 1;
        if * {
          return Failed;
        }
        Crash();
        return Down;
      }
      var ack := reply.value;
      if ack.sequence != head.sequence || (!ack.accepted && !ack.terminal) {
        setbacks := setbacks + 1;
        return Failed;
      }
      if ack.terminal && ack.reason !in {"expired", "disabled", "subject_removed"} {
        setbacks := setbacks + 1;
        return Failed;
      }
      assert Answer(head, ack) in past.answers && Acknowledges(ack, head);
      DeliveryIsSound(pending, kernel, ssh, boots, past);
      DeliveryIsSound(file, kernel, ssh, boots, past);
      past := past.(settled := past.settled + [head], taken := past.taken + {head});
      var saved := Save(pending[1..]);
      if saved.WriteCrashed? {
        Crash();
        return Down;
      }
      if saved.WriteFailed? {
        return Failed;
      }
      return Fine;
    }

    /** Up to eight posts, oldest first. */
    method Send(list: seq<Report>) returns (status: Status)
      requires Running(list)
      modifies this
      ensures Valid() && past.acked == old(past).acked && past.discarded == old(past).discarded
      ensures old(past).settled <= past.settled
      ensures |past.settled| <= |old(past).settled| + BATCH && old(setbacks) <= setbacks
      ensures !status.Fine? ==> old(setbacks) < setbacks
      ensures status.Fine? ==> var n := if |list| < BATCH then |list| else BATCH;
                past.settled == old(past).settled + list[..n] && file == if n == 0 then old(file) else list[n..]
    {
      hide Sound;
      var pending, sent := list, 0;
      while sent < BATCH && |pending| > 0
        invariant Running(pending) && sent <= BATCH && past.acked == old(past).acked && setbacks >= old(setbacks)
        invariant past.discarded == old(past).discarded
        invariant sent <= |list| && pending == list[sent..] && past.settled == old(past).settled + list[..sent]
        invariant file == if sent == 0 then old(file) else pending
      {
        var reply: Option<Reply> := *;
        status := SendHead(pending, reply);
        if !status.Fine? {
          return;
        }
        pending := pending[1..];
        sent := sent + 1;
      }
      return Fine;
    }

    /** Reads the kernel's collector and takes over what it answers. */
    method TakeFromKernel(list: seq<Report>) returns (pending: seq<Report>, status: Status)
      requires Running(list) && file == list
      modifies this
      ensures Valid() && past == old(past).(acked := past.acked, issued := past.issued)
      ensures old(past).issued <= past.issued && old(setbacks) <= setbacks
      ensures !status.Down? ==> Running(pending) && list <= pending && |pending| <= |list| + 1
      ensures setbacks == old(setbacks) ==> file == pending && !status.Down?
      ensures setbacks == old(setbacks) && |list| < MAX_PENDING ==> status.Fine? && kernel.pending.None?
    {
      hide Sound, Offered;
      KernelMoves(list, None);
      var report := ReadKernel(list);
      var lost := Setback();
      if lost {
        return list, Failed;
      }
      KernelMoves(list, report);
      pending, status := Accept(list, report);
    }

    /** Reads the Agent's own collector, which gives nothing while its clock is unset. */
    method TakeFromSsh(list: seq<Report>) returns (pending: seq<Report>, status: Status)
      requires Running(list)
      modifies this
      ensures Valid() && past == old(past).(acked := past.acked, issued := past.issued)
      ensures old(past).issued <= past.issued && old(setbacks) <= setbacks
      ensures !status.Down? ==> Running(pending) && list <= pending && |pending| <= |list| + 1
      ensures setbacks == old(setbacks) && old(file) == list ==> file == pending && !status.Down?
      ensures setbacks == old(setbacks) && |list| < MAX_PENDING ==>
                status.Fine? && ssh.pending.None? && kernel == old(kernel)
    {
      hide Sound, Offered, AckStep;
      var silent := Setback();
      if silent {
        return list, Fine;
      }
      var report := ReadSsh(list);
      pending, status := Accept(list, report);
    }

    /** Each collector may add one report to the file's list. */
    method TakeIn(list: seq<Report>) returns (pending: seq<Report>, status: Status)
      requires Running(list) && file == list
      modifies this
      ensures Valid() && past == old(past).(acked := past.acked, issued := past.issued)
      ensures old(past).issued <= past.issued && old(setbacks) <= setbacks
      ensures !status.Down? ==> Running(pending) && list <= pending && |pending| <= |list| + 2
      ensures setbacks == old(setbacks) ==> file == pending && !status.Down?
      ensures setbacks == old(setbacks) && |list| < MAX_PENDING - 1 ==>
                status.Fine? && kernel.pending.None? && ssh.pending.None?
    {
      hide Sound;
      var localStatus;
      pending, localStatus := TakeFromKernel(list);
      if localStatus.Down? {
        return pending, Down;
      }
      pending, status := TakeFromSsh(pending);
      if status.Fine? {
        status := localStatus;
      }
    }

    /** With the audit off the file is removed; the SSH collector may be reset at the same time. */
    method Discard() returns (status: Status)
      requires Valid()
      modifies this
      ensures Valid() && kernel == old(kernel) && old(setbacks) <= setbacks
      ensures status.Fine? <==> setbacks == old(setbacks)
      ensures status.Fine? ==> file == [] && past == Discarded(old(past), old(file))
      ensures !status.Fine? ==> file == old(file) && past == old(past)
    {
      if * {
        ssh := UNREAD;
      }
      var struck := Setback();
      if struck {
        return Failed;
      }
      DiscardIsSound(file, kernel, ssh, boots, past);
      past, file := Discarded(past, file), [];
      return Fine;
    }

    /** One activity round: both collectors, then the Controller. */
    method CollectAndReport(enabled: bool) returns (status: Status)
      requires Valid()
      modifies this
      ensures Valid() && old(past).settled <= past.settled
      ensures enabled ==> past.discarded == old(past).discarded && |past.settled| <= |old(past).settled| + 8
      ensures !enabled ==>
                past.taken == old(past).taken && past.posted == old(past).posted && past.acked == old(past).acked
      ensures !enabled && setbacks == old(setbacks) ==> status.Fine? && file == []
      ensures enabled && setbacks == old(setbacks) ==>
                && (file == [] || |past.settled| == |old(past).settled| + 8) && |file| <= 248
                && (|old(file)| < 255 ==> status.Fine?)
    {
      hide Sound;
      if !enabled {
        status := Discard();
        return;
      }
      var unreadable := Setback();
      if unreadable {
        return Failed;
      }
      var pending, localStatus := TakeIn(file);
      if localStatus.Down? {
        return Down;
      }
      status := Send(pending);
      if status.Fine? {
        status := localStatus;
      }
    }
  }
}
