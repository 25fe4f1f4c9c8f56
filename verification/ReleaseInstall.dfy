/**
 Installing a verified release (internal/agent/self_update.go): every file is
 staged beside its target, the old file is kept by hard link or by rename, all
 targets are switched, and any failure switches them back. One file operation
 fails, if it is come to at all; every operation is tried at most once.
 */
module ReleaseInstall {
  import opened Wrappers

  type Content = string

  /** The directory entries that belong to one release file. */
  datatype Entry = Entry(target: Option<Content>, stage: Option<Content>, backup: Option<Content>)

  /** stagedReleaseFile: `staged` is "stage is set"; a backup path is set exactly with `hadOld`. */
  datatype Item = Item(staged: bool, hadOld: bool, linked: bool)

  const UNTOUCHED := Item(false, false, false)

  datatype Op =
    | Mkdir(item: nat) | CopyNew(item: nat) | StatTarget(item: nat)
    | CreateReserved(item: nat) | RemoveReserved(item: nat) | LinkOld(item: nat)
    | MoveAside(item: nat) | MoveIn(item: nat) | MoveBack(item: nat)
    | RestoreOld(item: nat) | RemoveTarget(item: nat)
    | CleanStage(item: nat) | CleanBackup(item: nat)

  /**
   The operations whose failure leaves a sidecar behind: the removal of a backup,
   the release of a reserved name, and a directory that cannot be made after
   other files were already staged, where the code returns without cleaning up.
   */
  predicate Litters(op: Op, before: seq<Option<Content>>) {
    && op.item < |before|
    && (((op.CleanBackup? || op.RemoveReserved?) && before[op.item].Some?) || (op.Mkdir? && op.item > 0))
  }

  /** The staging operations that are come to, and end the install when they fail. */
  predicate StopsStaging(op: Op, before: seq<Option<Content>>) {
    && op.item < |before|
    && (op.Mkdir? || op.CopyNew? || op.StatTarget?
        || (before[op.item].Some? && (op.CreateReserved? || op.RemoveReserved?)))
  }

  /** The same of the switch itself; without hard links the old file has to be moved aside. */
  predicate StopsSwitch(op: Op, before: seq<Option<Content>>, windows: bool) {
    op.item < |before| && (op.MoveIn? || (op.MoveAside? && windows && before[op.item].Some?))
  }

  predicate Stops(weak: Option<Op>, before: seq<Option<Content>>, windows: bool) {
    weak.Some? && (StopsStaging(weak.value, before) || StopsSwitch(weak.value, before, windows))
  }

  predicate Clean(e: Entry) {
    e.stage.None? && e.backup.None?
  }

  // --- where one file can stand, given its content before and after -----------

  predicate Pristine(e: Entry, it: Item, before: Option<Content>) {
    e == Entry(before, None, None) && it == UNTOUCHED
  }

  predicate Prepared(e: Entry, it: Item, before: Option<Content>, after: Content) {
    && it.staged && it.hadOld == before.Some? && (it.linked ==> it.hadOld)
    && e == Entry(before, Some(after), if it.linked then before else None)
  }

  predicate Committed(e: Entry, it: Item, before: Option<Content>, after: Content) {
    && !it.staged && it.hadOld == before.Some?
    && e == Entry(Some(after), None, before)
  }

  predicate Restored(e: Entry, it: Item, before: Option<Content>) {
    e == Entry(before, None, None) && !it.staged
  }

  /** Staged, but the old file could not be provided for; a reserved name may be left. */
  predicate Abandoned(e: Entry, it: Item, before: Option<Content>, after: Content, reserved: bool) {
    it == Item(true, false, false) && e == Entry(before, Some(after), if reserved then Some("") else None)
  }

  /** Where file `j` stands after staging has failed at `op`. */
  predicate StandsAt(e: Entry, it: Item, j: nat, op: Op, before: Option<Content>, after: Content) {
    if j < op.item then Prepared(e, it, before, after)
    else if j > op.item || op.Mkdir? || op.CopyNew? then Pristine(e, it, before)
    else Abandoned(e, it, before, after, op.RemoveReserved?)
  }

  ghost predicate TargetsAre(disk: seq<Entry>, contents: seq<Option<Content>>) {
    |disk| == |contents| && forall i :: 0 <= i < |disk| ==> disk[i].target == contents[i]
  }

  ghost predicate AllClean(disk: seq<Entry>) {
    forall i :: 0 <= i < |disk| ==> Clean(disk[i])
  }

  class Installer {
    var disk: seq<Entry>
    var items: seq<Item>
    const windows: bool
    const weak: Option<Op>   // the operation that fails

    constructor (targets: seq<Option<Content>>, weak: Option<Op>, windows: bool)
      ensures |disk| == |items| == |targets| && this.weak == weak && this.windows == windows
      ensures forall i :: 0 <= i < |targets| ==> Pristine(disk[i], items[i], targets[i])
    {
      disk := seq(|targets|, i requires 0 <= i < |targets| => Entry(targets[i], None, None));
      items := seq(|targets|, i => UNTOUCHED);
      this.weak, this.windows := weak, windows;
    }

    predicate Fails(op: Op) {
      weak == Some(op)
    }

    /** The old file is linked exactly where the system can and the link does not fail. */
    predicate Links(i: nat, it: Item) {
      it.linked == (it.hadOld && !windows && !Fails(LinkOld(i)))
    }

    /** Keeps the old file by hard link, or reserves a name for a later rename. */
    method Preserve(i: nat, ghost before: Option<Content>, ghost after: Content) returns (ok: bool)
      requires i < |disk| == |items|
      requires items[i] == Item(true, false, false) && disk[i] == Entry(before, Some(after), None)
      modifies this
      ensures |disk| == |items| == |old(disk)|
      ensures disk == old(disk)[i := disk[i]] && items == old(items)[i := items[i]]
      ensures ok <==> !Fails(StatTarget(i)) && (before.Some? ==> !Fails(CreateReserved(i)) && !Fails(RemoveReserved(i)))
      ensures ok ==> Prepared(disk[i], items[i], before, after) && Links(i, items[i])
      ensures !ok ==> Abandoned(disk[i], items[i], before, after, Fails(RemoveReserved(i)))
    {
      if Fails(StatTarget(i)) {
        return false;
      }
      if disk[i].target.None? {
        return true;
      }
      if Fails(CreateReserved(i)) {
        return false;
      }
      if Fails(RemoveReserved(i)) {
        disk := disk[i := disk[i].(backup := Some(""))];
        return false;
      }
      items := items[i := items[i].(hadOld := true)];
      if !windows && !Fails(LinkOld(i)) {
        disk := disk[i := disk[i].(backup := disk[i].target)];
        items := items[i := items[i].(linked := true)];
      }
      return true;
    }

    method CommitOne(i: nat, ghost before: Option<Content>, ghost after: Content) returns (ok: bool)
      requires i < |disk| == |items| && Prepared(disk[i], items[i], before, after)
      modifies this
      ensures |disk| == |items| == |old(disk)|
      ensures disk == old(disk)[i := disk[i]] && items == old(items)[i := items[i]]
      ensures ok <==> !Fails(MoveIn(i)) && (before.Some? && !old(items)[i].linked ==> !Fails(MoveAside(i)))
      ensures if ok then Committed(disk[i], items[i], before, after) else disk == old(disk) && items == old(items)
    {
      var aside := items[i].hadOld && !items[i].linked;
      if aside {
        if Fails(MoveAside(i)) {
          return false;
        }
        disk := disk[i := disk[i].(target := None, backup := disk[i].target)];
      }
      if Fails(MoveIn(i)) {
        if aside && !Fails(MoveBack(i)) {
          disk := disk[i := disk[i].(target := disk[i].backup, backup := None)];
        }
        return false;
      }
      disk := disk[i := disk[i].(target := disk[i].stage, stage := None)];
      items := items[i := items[i].(staged := false)];
      return true;
    }

    /** Puts the first `k` files back, after a failed switch. */
    method Restore(k: nat, ghost before: seq<Option<Content>>, ghost after: seq<Content>)
      requires k <= |disk| == |items| == |before| == |after| && weak.Some?
      requires weak.value.MoveAside? || weak.value.MoveIn?
      requires forall j :: 0 <= j < k ==> Committed(disk[j], items[j], before[j], after[j])
      modifies this
      ensures |disk| == |old(disk)| && items == old(items)
      ensures forall j :: 0 <= j < k ==> Restored(disk[j], items[j], before[j])
      ensures forall j :: k <= j < |disk| ==> disk[j] == old(disk)[j]
    {
      for i := 0 to k
        invariant |disk| == |old(disk)| && items == old(items)
        invariant forall j :: 0 <= j < i ==> Restored(disk[j], items[j], before[j])
        invariant forall j :: i <= j < |disk| ==> disk[j] == old(disk)[j]
      {
        if items[i].hadOld {
          if !Fails(RestoreOld(i)) {
            disk := disk[i := disk[i].(target := disk[i].backup, backup := None)];
          }
        } else if !Fails(RemoveTarget(i)) {
          disk := disk[i := disk[i].(target := None)];
        }
      }
    }

    method Commit(ghost before: seq<Option<Content>>, ghost after: seq<Content>) returns (ok: bool)
      requires |disk| == |items| == |before| == |after|
      requires forall j :: 0 <= j < |disk| ==> Prepared(disk[j], items[j], before[j], after[j]) && Links(j, items[j])
      modifies this
      ensures |disk| == |items| == |before|
      ensures ok <==> !(weak.Some? && StopsSwitch(weak.value, before, windows))
      ensures ok ==> forall j :: 0 <= j < |disk| ==> Committed(disk[j], items[j], before[j], after[j])
      ensures !ok ==> forall j :: 0 <= j < |disk| ==>
                Restored(disk[j], items[j], before[j]) || Prepared(disk[j], items[j], before[j], after[j])
    {
      for i := 0 to |items|
        invariant |disk| == |items| == |before|
        invariant weak.Some? && StopsSwitch(weak.value, before, windows) ==> i <= weak.value.item
        invariant forall j :: 0 <= j < i ==> Committed(disk[j], items[j], before[j], after[j])
        invariant forall j :: i <= j < |disk| ==> Prepared(disk[j], items[j], before[j], after[j]) && Links(j, items[j])
      {
        ok := CommitOne(i, before[i], after[i]);
        if !ok {
          Restore(i, before, after);
          return;
        }
      }
      return true;
    }

    /** What cleanup leaves of one file. */
    function Cleaned(i: nat, e: Entry, it: Item): Entry {
      Entry(e.target,
            if it.staged && !Fails(CleanStage(i)) then None else e.stage,
            if it.hadOld && !Fails(CleanBackup(i)) then None else e.backup)
    }

    method Cleanup()
      requires |disk| == |items|
      modifies this`disk
      ensures |disk| == |old(disk)|
      ensures forall j :: 0 <= j < |disk| ==> disk[j] == Cleaned(j, old(disk)[j], items[j])
    {
      for i := 0 to |items|
        invariant |disk| == |old(disk)|
        invariant forall j :: 0 <= j < i ==> disk[j] == Cleaned(j, old(disk)[j], items[j])
        invariant forall j :: i <= j < |disk| ==> disk[j] == old(disk)[j]
      {
        if items[i].staged && disk[i].stage.Some? && !Fails(CleanStage(i)) {
          disk := disk[i := disk[i].(stage := None)];
        }
        if items[i].hadOld && disk[i].backup.Some? && !Fails(CleanBackup(i)) {
          disk := disk[i := disk[i].(backup := None)];
        }
      }
    }

    /** Stages every file; a directory that cannot be made ends it without asking for cleanup. */
    method Stage(after: seq<Content>, ghost before: seq<Option<Content>>) returns (ok: bool, clean: bool)
      requires |disk| == |items| == |before| == |after|
      requires forall j :: 0 <= j < |disk| ==> Pristine(disk[j], items[j], before[j])
      modifies this
      ensures |disk| == |items| == |before|
      ensures ok <==> !(weak.Some? && StopsStaging(weak.value, before))
      ensures clean <==> ok || !weak.value.Mkdir?
      ensures ok ==>
                forall j :: 0 <= j < |disk| ==> Prepared(disk[j], items[j], before[j], after[j]) && Links(j, items[j])
      ensures !ok ==> forall j :: 0 <= j < |disk| ==>
                StandsAt(disk[j], items[j], j, weak.value, before[j], after[j])
    {
      ok, clean := true, true;
      for i := 0 to |items|
        invariant |disk| == |items| == |before|
        invariant weak.Some? && StopsStaging(weak.value, before) ==> i <= weak.value.item
        invariant forall j :: 0 <= j < i ==> Prepared(disk[j], items[j], before[j], after[j]) && Links(j, items[j])
        invariant forall j :: i <= j < |disk| ==> Pristine(disk[j], items[j], before[j])
      {
        if Fails(Mkdir(i)) {
          return false, false;
        }
        if Fails(CopyNew(i)) {
          return false, true;
        }
        disk := disk[i := disk[i].(stage := Some(after[i]))];
        items := items[i := items[i].(staged := true)];
        ok := Preserve(i, before[i], after[i]);
        if !ok {
          return;
        }
      }
    }

    /**
     All or nothing under one failing operation: every target is switched exactly
     if the operation is not one that stops the install, and otherwise every
     target is as it was, absent ones included. A sidecar survives exactly if the
     operation is one that litters.
     */
    method Install(after: seq<Content>, ghost before: seq<Option<Content>>) returns (ok: bool)
      requires |disk| == |items| == |before| == |after|
      requires forall j :: 0 <= j < |disk| ==> Pristine(disk[j], items[j], before[j])
      modifies this
      ensures ok <==> !Stops(weak, before, windows)
      ensures TargetsAre(disk, if ok then seq(|after|, i requires 0 <= i < |after| => Some(after[i])) else before)
      ensures AllClean(disk) <==> !(weak.Some? && Litters(weak.value, before))
    {
      var clean;
      ok, clean := Stage(after, before);
      if !ok {
        ghost var staged := disk;
        if clean {
          Cleanup();
        }
        forall j | 0 <= j < |disk| ensures !Clean(disk[j]) <==> LittersAt(weak.value, before, j) {
          assert StandsAt(staged[j], items[j], j, weak.value, before[j], after[j]);
        }
        SidecarLeft(disk, before);
        return;
      }
      ok := Commit(before, after);
      Cleanup();
      SidecarLeft(disk, before);
    }

    /** Reads the sidecars off the one file they can belong to. */
    lemma SidecarLeft(disk: seq<Entry>, before: seq<Option<Content>>)
      requires |disk| == |before|
      requires forall j :: 0 <= j < |disk| ==> (!Clean(disk[j]) <==> weak.Some? && LittersAt(weak.value, before, j))
      ensures AllClean(disk) <==> !(weak.Some? && Litters(weak.value, before))
    {
      if weak.Some? && Litters(weak.value, before) {
        var op := weak.value;
        assert LittersAt(op, before, if op.Mkdir? then 0 else op.item);
      }
    }
  }

  /** A failing operation leaves a sidecar of file `j`. */
  predicate LittersAt(op: Op, before: seq<Option<Content>>, j: nat) {
    Litters(op, before) && if op.Mkdir? then j < op.item else j == op.item
  }

  /** A directory that cannot be made for the second file leaves the first one's stage file behind. */
  method SecondDirectoryFails(windows: bool) returns (s: Installer, ok: bool)
    ensures !ok && TargetsAre(s.disk, [Some("old"), None]) && !AllClean(s.disk)
  {
    var before: seq<Option<Content>> := [Some("old"), None];
    s := new Installer(before, Some(Mkdir(1)), windows);
    ok := s.Install(["new", "more"], before);
  }
}
